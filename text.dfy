/** Decimal digits, integer parsing and rendering, and splitting/joining text. */
module Text {
  import opened Wrappers

  const U32Limit: nat := 0x1_0000_0000
  const U64Limit: nat := 0x1_0000_0000_0000_0000

  /** Rust's `u32` and `u64`. */
  type U32 = n: nat | n < 0x1_0000_0000
  type U64 = n: nat | n < 0x1_0000_0000_0000_0000

  predicate IsDigit(c: char) {
    '0' <= c <= '9'
  }

  predicate AllDigits(s: string) {
    forall i :: 0 <= i < |s| ==> IsDigit(s[i])
  }

  function DigitValue(c: char): nat
    requires IsDigit(c)
  {
    c as nat - '0' as nat
  }

  function DigitChar(d: nat): (c: char)
    requires d < 10
    ensures IsDigit(c) && DigitValue(c) == d
  {
    ('0' as nat + d) as char
  }

  /** The value of a string of decimal digits, most significant first. */
  function DigitsValue(s: string): nat
    requires AllDigits(s)
  {
    if s == [] then 0 else DigitsValue(s[..|s| - 1]) * 10 + DigitValue(s[|s| - 1])
  }

  /** A digit string as Rust's `to_string` and Python's `str` print it: no leading zero. */
  predicate Canonical(s: string) {
    |s| >= 1 && AllDigits(s) && (|s| > 1 ==> s[0] != '0')
  }

  /** Decimal rendering of a non-negative integer (`to_string()`, `str()`). */
  function NatToString(n: nat): (s: string)
    ensures Canonical(s)
    decreases n
  {
    if n < 10 then [DigitChar(n)] else NatToString(n / 10) + [DigitChar(n % 10)]
  }

  lemma {:induction false} DigitsValueOfNatToString(n: nat)
    ensures DigitsValue(NatToString(n)) == n
    decreases n
  {
    if n >= 10 {
      var s := NatToString(n);
      assert s[..|s| - 1] == NatToString(n / 10);
      DigitsValueOfNatToString(n / 10);
    }
  }

  /** A digit string is worth at least its leading digit. */
  lemma {:induction false} LeadingDigitBound(s: string)
    requires AllDigits(s) && |s| >= 1
    ensures DigitsValue(s) >= DigitValue(s[0])
  {
    if |s| > 1 {
      LeadingDigitBound(s[..|s| - 1]);
    }
  }

  /** Rendering the value of a canonical digit string gives the string back. */
  lemma {:induction false} NatToStringOfDigitsValue(s: string)
    requires Canonical(s)
    ensures NatToString(DigitsValue(s)) == s
  {
    if |s| > 1 {
      var p := s[..|s| - 1];
      assert Canonical(p);
      NatToStringOfDigitsValue(p);
      LeadingDigitBound(p);
      var v := DigitsValue(s);
      assert v / 10 == DigitsValue(p) && v % 10 == DigitValue(s[|s| - 1]);
      assert NatToString(v) == NatToString(v / 10) + [DigitChar(v % 10)];
      assert s == p + [s[|s| - 1]];
    }
  }

  /**
   * Rust's `str::parse::<u64>()`: an optional `+`, then at least one ASCII
   * digit, and nothing else; a value of 2^64 or more overflows.
   */
  function ParseU64(s: string): Option<U64> {
    var digits := if |s| > 0 && s[0] == '+' then s[1..] else s;
    if digits != [] && AllDigits(digits) && DigitsValue(digits) < U64Limit
    then Some(DigitsValue(digits))
    else None
  }

  /** Every u64 survives printing and parsing back. */
  lemma ParseU64OfNatToString(n: U64)
    ensures ParseU64(NatToString(n)) == Some(n)
  {
    DigitsValueOfNatToString(n);
  }

  /** A canonical id is rendered back verbatim after it is parsed. */
  lemma NatToStringOfParseU64(s: string)
    requires Canonical(s) && ParseU64(s).Some?
    ensures NatToString(ParseU64(s).value) == s
  {
    NatToStringOfDigitsValue(s);
  }

  /**
   * Python's `int()` on a string, restricted to an optional sign followed by
   * ASCII digits.
   */
  function ParsePyInt(s: string): Option<int> {
    if |s| > 0 && s[0] == '-' then
      (if |s| > 1 && AllDigits(s[1..]) then Some(-(DigitsValue(s[1..]) as int)) else None)
    else
      var digits := if |s| > 0 && s[0] == '+' then s[1..] else s;
      if digits != [] && AllDigits(digits) then Some(DigitsValue(digits)) else None
  }

  lemma ParsePyIntOfNatToString(n: nat)
    ensures ParsePyInt(NatToString(n)) == Some(n)
  {
    DigitsValueOfNatToString(n);
  }

  /** Python's `str.split(sep)` for a one-character separator. */
  function Split(s: string, sep: char): (parts: seq<string>)
    ensures |parts| >= 1
    ensures forall i :: 0 <= i < |parts| ==> sep !in parts[i]
  {
    if s == [] then [[]]
    else
      var rest := Split(s[1..], sep);
      if s[0] == sep then [[]] + rest
      else [[s[0]] + rest[0]] + rest[1..]
  }

  /** Rust's `join` and Python's `str.join` with a one-character separator. */
  function Join(parts: seq<string>, sep: char): string {
    if |parts| == 0 then []
    else if |parts| == 1 then parts[0]
    else parts[0] + [sep] + Join(parts[1..], sep)
  }

  /** Joining the pieces of a split gives the original text back. */
  lemma {:induction false} JoinSplit(s: string, sep: char)
    ensures Join(Split(s, sep), sep) == s
  {
    if s != [] {
      JoinSplit(s[1..], sep);
      var rest := Split(s[1..], sep);
      if s[0] != sep {
        if |rest| == 1 {
          assert Split(s, sep) == [[s[0]] + rest[0]];
        } else {
          assert Split(s, sep)[1..] == rest[1..];
        }
      }
    }
  }

  /** Splitting a join of separator-free pieces gives the pieces back. */
  lemma {:induction false} SplitJoin(parts: seq<string>, sep: char)
    requires |parts| >= 1
    requires forall i :: 0 <= i < |parts| ==> sep !in parts[i]
    ensures Split(Join(parts, sep), sep) == parts
  {
    if |parts| == 1 {
      SplitNoSep(parts[0], sep);
    } else {
      SplitJoin(parts[1..], sep);
      SplitPrefix(parts[0], Join(parts[1..], sep), sep);
      assert [parts[0]] + parts[1..] == parts;
    }
  }

  lemma {:induction false} SplitNoSep(s: string, sep: char)
    requires sep !in s
    ensures Split(s, sep) == [s]
  {
    if s != [] {
      SplitNoSep(s[1..], sep);
      assert [s[0]] + s[1..] == s;
    }
  }

  lemma {:induction false} SplitPrefix(p: string, t: string, sep: char)
    requires sep !in p
    ensures Split(p + [sep] + t, sep) == [p] + Split(t, sep)
  {
    if p == [] {
      assert p + [sep] + t == [sep] + t;
      assert ([sep] + t)[1..] == t;
    } else {
      SplitPrefix(p[1..], t, sep);
      assert (p + [sep] + t)[1..] == p[1..] + [sep] + t;
      assert [p[0]] + p[1..] == p;
    }
  }

  /** Splitting at one separator splits each side independently. */
  lemma {:induction false} SplitAppend(p: string, t: string, sep: char)
    ensures Split(p + [sep] + t, sep) == Split(p, sep) + Split(t, sep)
  {
    if p == [] {
      assert p + [sep] + t == [sep] + t;
      assert ([sep] + t)[1..] == t;
    } else {
      var r := p[1..] + [sep] + t;
      assert p + [sep] + t == [p[0]] + r;
      assert p == [p[0]] + p[1..];
      SplitHead(p[0], r, sep);
      SplitHead(p[0], p[1..], sep);
      SplitAppend(p[1..], t, sep);
      HeadConcat(p[0], sep, Split(p[1..], sep), Split(t, sep));
    }
  }

  /** The first-character step of `Split` commutes with appending further pieces. */
  lemma HeadConcat(c: char, sep: char, x: seq<string>, y: seq<string>)
    requires |x| >= 1
    ensures (if c == sep then [[]] + (x + y) else [[c] + (x + y)[0]] + (x + y)[1..]) ==
            (if c == sep then [[]] + x else [[c] + x[0]] + x[1..]) + y
  {
    assert (x + y)[0] == x[0] && (x + y)[1..] == x[1..] + y;
  }

  /** How `Split` treats the first character. */
  lemma SplitHead(c: char, r: string, sep: char)
    ensures Split([c] + r, sep) ==
      if c == sep then [[]] + Split(r, sep) else [[c] + Split(r, sep)[0]] + Split(r, sep)[1..]
  {
    assert ([c] + r)[0] == c && ([c] + r)[1..] == r;
  }
}

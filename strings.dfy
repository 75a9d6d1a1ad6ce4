/**
  Python 2 byte-string operations used throughout the journal: prefix and
  suffix tests, `strip`, `split`, `join`, `'%d'` formatting and `int()`.
*/
module Strings {
  import opened Wrappers

  /** The characters Python 2 `str.isspace` accepts (space, \t, \n, \v, \f, \r). */
  predicate IsSpace(c: char) {
    c == ' ' || 9 <= c as int <= 13
  }

  predicate StartsWith(s: string, prefix: string) {
    |prefix| <= |s| && s[..|prefix|] == prefix
  }

  predicate EndsWith(s: string, suffix: string) {
    |suffix| <= |s| && s[|s| - |suffix|..] == suffix
  }

  /** `s.lstrip()`: the longest suffix of `s` that does not start with whitespace. */
  function LStrip(s: string): (r: string)
    ensures EndsWith(s, r)
    ensures r == [] || !IsSpace(r[0])
    ensures forall i :: 0 <= i < |s| - |r| ==> IsSpace(s[i])
    decreases |s|
  {
    if |s| > 0 && IsSpace(s[0]) then LStrip(s[1..]) else s
  }

  /** `s.rstrip()`: the longest prefix of `s` that does not end with whitespace. */
  function RStrip(s: string): (r: string)
    ensures StartsWith(s, r)
    ensures r == [] || !IsSpace(r[|r| - 1])
    ensures forall i :: |r| <= i < |s| ==> IsSpace(s[i])
    decreases |s|
  {
    if |s| > 0 && IsSpace(s[|s| - 1]) then RStrip(s[..|s| - 1]) else s
  }

  /** `s.strip()` */
  function Strip(s: string): string {
    RStrip(LStrip(s))
  }

  /** `not s.strip()`: the string is empty or whitespace only. */
  lemma StripEmptyIffBlank(s: string)
    ensures Strip(s) == [] <==> forall i :: 0 <= i < |s| ==> IsSpace(s[i])
  {
    var l := LStrip(s);
    if Strip(s) == [] {
      forall i | 0 <= i < |s| ensures IsSpace(s[i]) {
        if i >= |s| - |l| {
          assert s[i] == l[i - (|s| - |l|)];
        }
      }
    } else {
      assert l != [] && !IsSpace(l[0]);
      assert s[|s| - |l|] == l[0];
    }
  }

  /** Joins `parts` with `sep` between them: Python's `sep.join(parts)`. */
  function Join(parts: seq<string>, sep: string): string {
    if |parts| == 0 then ""
    else if |parts| == 1 then parts[0]
    else parts[0] + sep + Join(parts[1..], sep)
  }

  /** `''.join(parts)` */
  function Concat(parts: seq<string>): string {
    if |parts| == 0 then "" else parts[0] + Concat(parts[1..])
  }

  lemma ConcatAppend(a: seq<string>, b: seq<string>)
    ensures Concat(a + b) == Concat(a) + Concat(b)
  {
    if a != [] {
      assert (a + b)[0] == a[0] && (a + b)[1..] == a[1..] + b;
      ConcatAppend(a[1..], b);
      assert Concat(a + b) == a[0] + (Concat(a[1..]) + Concat(b));
    } else {
      assert a + b == b;
    }
  }

  /** A field separator: one given character, or any whitespace (`None`). */
  predicate IsSep(c: char, sep: Option<char>) {
    if sep.Some? then c == sep.value else IsSpace(c)
  }

  /**
    Splits `s` at every separator character, keeping empty fields: Python's
    `s.split(sep)` for a one-character `sep`; with `None`, the fields that
    `s.split()` keeps once the empty ones are dropped.
  */
  function SplitFields(s: string, sep: Option<char>): (r: seq<string>)
    ensures |r| >= 1
    ensures forall f <- r :: forall c <- f :: !IsSep(c, sep)
  {
    if |s| == 0 then [""]
    else
      var rest := SplitFields(s[1..], sep);
      if IsSep(s[0], sep) then [""] + rest
      else
        var first := [s[0]] + rest[0];
        assert rest[0] in rest;
        assert forall i :: 0 <= i < |first| ==> !IsSep(first[i], sep) by {
          forall i | 0 <= i < |first| ensures !IsSep(first[i], sep) {
            if i > 0 { assert first[i] == rest[0][i - 1]; }
          }
        }
        assert forall f <- rest[1..] :: f in rest;
        [first] + rest[1..]
  }

  /** `s.split(sep)` for a one-character separator. */
  function SplitOn(s: string, sep: char): (r: seq<string>)
    ensures |r| >= 1
    ensures forall f <- r :: sep !in f
  {
    var r := SplitFields(s, Some(sep));
    assert forall f <- r :: forall c <- f :: c != sep;
    r
  }

  /** Splitting and then joining with the same separator gives the string back. */
  lemma {:induction false} SplitJoin(s: string, sep: char)
    ensures Join(SplitOn(s, sep), [sep]) == s
    decreases |s|
  {
    if |s| > 0 {
      var rest := SplitFields(s[1..], Some(sep));
      SplitJoin(s[1..], sep);
      if s[0] != sep {
        var r := SplitFields(s, Some(sep));
        assert r == [[s[0]] + rest[0]] + rest[1..];
        if |rest| > 1 {
          assert r[1..] == rest[1..];
        }
      }
    }
  }

  /** A string without the separator is a single field. */
  lemma {:induction false} SplitNoSep(s: string, sep: char)
    requires sep !in s
    ensures SplitOn(s, sep) == [s]
    decreases |s|
  {
    if |s| > 0 {
      SplitNoSep(s[1..], sep);
      assert [s[0]] + s[1..] == s;
    }
  }

  /** The text before the first separator is the first field. */
  lemma {:induction false} SplitAtFirst(a: string, sep: char, b: string)
    requires sep !in a
    ensures SplitOn(a + [sep] + b, sep) == [a] + SplitOn(b, sep)
    decreases |a|
  {
    var s := a + [sep] + b;
    if |a| == 0 {
      assert s[1..] == b;
    } else {
      assert s[1..] == a[1..] + [sep] + b;
      SplitAtFirst(a[1..], sep, b);
      assert [a[0]] + a[1..] == a;
    }
  }

  function NonEmpty(fields: seq<string>): (r: seq<string>)
    ensures forall f <- r :: f != []
    ensures forall f <- r :: f in fields
  {
    if |fields| == 0 then []
    else if fields[0] == [] then NonEmpty(fields[1..])
    else [fields[0]] + NonEmpty(fields[1..])
  }

  /** `s.split()`: the maximal runs of non-whitespace characters. */
  function Words(s: string): (r: seq<string>)
    ensures forall w <- r :: w != [] && forall c <- w :: !IsSpace(c)
  {
    NonEmpty(SplitFields(s, None))
  }

  /** A string with a non-whitespace character has at least one word. */
  lemma {:induction false} WordsOfNonBlank(s: string, i: nat)
    requires i < |s| && !IsSpace(s[i])
    ensures |Words(s)| >= 1
    decreases i
  {
    var rest := SplitFields(s[1..], None);
    if IsSpace(s[0]) {
      assert SplitFields(s, None) == [""] + rest;
      assert ([""] + rest)[1..] == rest;
      WordsOfNonBlank(s[1..], i - 1);
    } else {
      var fields := SplitFields(s, None);
      assert fields[0] == [s[0]] + rest[0];
      assert |NonEmpty(fields)| >= 1;
    }
  }

  /** A line that is not blank has at least one word. */
  lemma WordsOfStripped(s: string)
    requires Strip(s) != []
    ensures |Words(s)| >= 1
  {
    StripEmptyIffBlank(s);
    var i :| 0 <= i < |s| && !IsSpace(s[i]);
    WordsOfNonBlank(s, i);
  }

  /** `os.path.join(a, b)` on POSIX: an absolute `b` replaces `a`. */
  function PathJoin(a: string, b: string): string {
    if StartsWith(b, "/") then b
    else if a == "" || EndsWith(a, "/") then a + b
    else a + "/" + b
  }

  /** The joined path ends with its last part, and an absolute last part replaces the first. */
  lemma PathJoinEnds(a: string, b: string)
    ensures EndsWith(PathJoin(a, b), b)
    ensures StartsWith(b, "/") ==> PathJoin(a, b) == b
  {
    var r := PathJoin(a, b);
    assert r[|r| - |b|..] == b;
  }

  // ---------------------------------------------------------------------
  // Decimal numbers: '%d' and '%02d' formatting and int() parsing

  predicate IsDigit(c: char) {
    '0' <= c <= '9'
  }

  predicate IsDigits(s: string) {
    forall c <- s :: IsDigit(c)
  }

  function DigitChar(d: nat): (c: char)
    requires d < 10
    ensures IsDigit(c) && c as int - '0' as int == d
  {
    ('0' as int + d) as char
  }

  /** The value of a string of decimal digits ("" has value 0). */
  function DecValue(s: string): nat
    requires IsDigits(s)
  {
    if |s| == 0 then 0
    else
      assert IsDigit(s[|s| - 1]);
      DecValue(s[..|s| - 1]) * 10 + (s[|s| - 1] as int - '0' as int)
  }

  function Pow10(n: nat): nat {
    if n == 0 then 1 else 10 * Pow10(n - 1)
  }

  /**
    `'%0<width>d' % n`: the decimal digits of `n`, left-padded with zeros to
    `width`; a number that needs more digits is not truncated.
  */
  function PadDec(n: nat, width: nat): (r: string)
    ensures IsDigits(r) && DecValue(r) == n
    ensures |r| >= 1 && |r| >= width
    ensures n < Pow10(width) ==> |r| == width || (width == 0 && |r| == 1)
    ensures width <= 1 && n > 0 ==> r[0] != '0'
    decreases n + width
  {
    if n < 10 && width <= 1 then [DigitChar(n)]
    else
      var w := if width > 0 then width - 1 else 0;
      var p := PadDec(n / 10, w);
      var r := p + [DigitChar(n % 10)];
      assert r[..|r| - 1] == p;
      assert n < Pow10(width) ==> n / 10 < Pow10(w) by {
        if n < Pow10(width) && width > 0 {
          assert Pow10(width) == 10 * Pow10(w);
        }
      }
      r
  }

  /** `'%d' % n` for a non-negative `n`. */
  function NatToDec(n: nat): (r: string)
    ensures IsDigits(r) && DecValue(r) == n && |r| >= 1
    ensures r[0] == '0' ==> n == 0 && r == "0"
  {
    PadDec(n, 0)
  }

  /** Python's `int(s)` on a byte string: optional surrounding whitespace, an optional sign, then digits. */
  function PyInt(s: string): (r: Result<int>)
    ensures r.Err? ==> r.error == ValueError
  {
    var t := Strip(s);
    if |t| > 0 && (t[0] == '-' || t[0] == '+') then
      var body := t[1..];
      if |body| > 0 && IsDigits(body) then Ok(if t[0] == '-' then -(DecValue(body) as int) else DecValue(body))
      else Err(ValueError)
    else if |t| > 0 && IsDigits(t) then Ok(DecValue(t))
    else Err(ValueError)
  }

  /** A string that neither starts nor ends with whitespace is its own `strip()`. */
  lemma StripUnchanged(s: string)
    requires |s| > 0 && !IsSpace(s[0]) && !IsSpace(s[|s| - 1])
    ensures Strip(s) == s
  {
    assert LStrip(s) == s;
    assert RStrip(s) == s;
  }

  /** `int()` of a plain string of digits is its decimal value. */
  lemma PyIntDigits(s: string)
    requires |s| > 0 && IsDigits(s)
    ensures PyInt(s) == Ok(DecValue(s))
  {
    assert IsDigit(s[0]) && IsDigit(s[|s| - 1]);
    StripUnchanged(s);
    assert s[0] != '-' && s[0] != '+';
  }

  /** `int('%d' % n) == n`: a printed number parses back. */
  lemma PyIntNatToDec(n: nat)
    ensures PyInt(NatToDec(n)) == Ok(n)
  {
    PyIntDigits(NatToDec(n));
  }

  /** `int('-%d' % n) == -n` */
  lemma PyIntNegNatToDec(n: nat)
    ensures PyInt("-" + NatToDec(n)) == Ok(-(n as int))
  {
    var d := NatToDec(n);
    var s := "-" + d;
    assert IsDigit(d[|d| - 1]);
    assert s[|s| - 1] == d[|d| - 1];
    StripUnchanged(s);
    assert s[1..] == d;
  }

  /** `'%d' % i` */
  function IntToDec(i: int): (r: string)
    ensures '_' !in r && |r| > 0 && IsDigit(r[|r| - 1])
  {
    var digits := NatToDec(if i < 0 then -i else i);
    assert IsDigit(digits[|digits| - 1]);
    if i < 0 then
      var r := "-" + digits;
      assert r[|r| - 1] == digits[|digits| - 1];
      r
    else
      digits
  }

  /** `int('%d' % i) == i` */
  lemma IntToDecParses(i: int)
    ensures PyInt(IntToDec(i)) == Ok(i)
  {
    if i < 0 {
      PyIntNegNatToDec(-i);
    } else {
      PyIntNatToDec(i);
    }
  }
}

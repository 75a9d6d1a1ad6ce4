// writelightly/utils.py: the last day of a month, file sizes, the list of
// months that have entries, recognising a date typed by the user, and
// reading one (possibly multibyte) character from the keyboard.

module Utils {
  import opened Wrappers
  import opened Strings
  import opened Sorting
  import opened Dates

  // ---------------------------------------------------------------------
  // lastday

  /** An argument of `lastday`: a `datetime.date`, an `int`, or a value of any other type. */
  datatype Arg = DateArg(date: Date) | IntArg(n: int) | OtherArg

  /** The year and month `lastday` takes from its arguments; `TypeError` for any other argument list. */
  function MonthArgs(args: seq<Arg>): (r: Result<(int, int)>)
    ensures r.Err? ==> r.error == TypeError
    ensures r.Ok? <==> (|args| == 1 && args[0].DateArg?) || (|args| == 2 && args[0].IntArg? && args[1].IntArg?)
  {
    if |args| == 1 && args[0].DateArg? then Ok((args[0].date.year, args[0].date.month))
    else if |args| == 2 && args[0].IntArg? && args[1].IntArg? then Ok((args[0].n, args[1].n))
    else Err(TypeError)
  }

  /**
    `lastday(*args)`: the day before the first of the next month. A month
    outside 1..12 reaches `datetime.date`, which refuses it, except that
    month 0 names the first of January and so gives 31.
  */
  function LastDay(args: seq<Arg>): (r: Result<int>)
    ensures MonthArgs(args).Err? ==> r == Err(TypeError)
    ensures r.Err? ==> r.error == TypeError || r.error == ValueError || r.error == OverflowError
    ensures r.Ok? ==> 28 <= r.value <= 31
  {
    match MonthArgs(args)
    case Err(e) => Err(e)
    case Ok((year, month)) =>
      match MakeDate(if month != 12 then year else year + 1, if month != 12 then month + 1 else 1, 1)
      case Err(e) => Err(e)
      case Ok(nextFirst) =>
        match DayBefore(nextFirst)
        case Err(e) => Err(e)
        case Ok(last) => Ok(last.day)
  }

  /** For a month of a representable year before December 9999, `lastday` is the month's length. */
  lemma LastDayIsMonthLength(args: seq<Arg>, year: int, month: int)
    requires MonthArgs(args) == Ok((year, month))
    requires 1 <= year <= 9999 && 1 <= month <= 12 && !(year == 9999 && month == 12)
    ensures LastDay(args) == Ok(DaysInMonth(year, month))
  {
  }

  /** The examples of `lastday`'s documentation, and December rolling over to January. */
  lemma LastDayExamples()
    ensures LastDay([IntArg(2011), IntArg(11)]) == Ok(30)
    ensures LastDay([DateArg(Date(2011, 2, 1))]) == Ok(28)
    ensures LastDay([IntArg(2011), IntArg(12)]) == Ok(31)
    ensures LastDay([IntArg(2012), IntArg(2)]) == Ok(29)
    ensures LastDay([]) == Err(TypeError)
    ensures LastDay([IntArg(2011)]) == Err(TypeError)
    ensures LastDay([IntArg(2011), OtherArg]) == Err(TypeError)
  {
    assert DaysInMonth(2011, 11) == 30;
    assert !IsLeap(2011) && IsLeap(2012);
  }

  /** December 9999 has a last day, but `lastday` asks for January 10000 and fails. */
  lemma LastDayMaxYear()
    ensures LastDay([IntArg(9999), IntArg(12)]) == Err(ValueError)
    ensures LastDayOfMonth(9999, 12) == Ok(31)
  {
  }

  /** `lastday` as evidently intended: the length of every month `datetime.date` can represent. */
  function LastDayOfMonth(year: int, month: int): (r: Result<int>)
    ensures r.Ok? <==> 1 <= year <= 9999 && 1 <= month <= 12
    ensures r.Ok? ==> r.value == DaysInMonth(year, month) && ValidDate(Date(year, month, r.value))
    ensures r.Ok? ==> !ValidDate(Date(year, month, r.value + 1))
  {
    if 1 <= year <= 9999 && 1 <= month <= 12 then Ok(DaysInMonth(year, month)) else Err(ValueError)
  }

  // ---------------------------------------------------------------------
  // format_size

  /** `format_size` for sizes up to 1024 bytes: `'<n> B'`; `None` stands for the KiB form. */
  function FormatSize(size: int): (r: Option<string>)
    ensures r.Some? <==> size <= 1024
    ensures r.Some? ==> EndsWith(r.value, " B")
  {
    if size > 1024 then None else Some(IntToDec(size) + " B")
  }

  /** The number in front of `" B"` is the size itself. */
  lemma FormatSizeParses(size: int)
    requires size <= 1024
    ensures var s := FormatSize(size).value; PyInt(s[..|s| - 2]) == Ok(size)
  {
    var s := FormatSize(size).value;
    assert s[..|s| - 2] == IntToDec(size);
    IntToDecParses(size);
  }

  // ---------------------------------------------------------------------
  // get_all_months

  /** Tuples of integers compared as Python compares them: element by element, a prefix first. */
  predicate LexLe(a: seq<int>, b: seq<int>) {
    if |a| == 0 then true
    else if |b| == 0 then false
    else a[0] < b[0] || (a[0] == b[0] && LexLe(a[1..], b[1..]))
  }

  lemma {:induction false} LexLeTotal(a: seq<int>, b: seq<int>)
    ensures LexLe(a, b) || LexLe(b, a)
  {
    if |a| > 0 && |b| > 0 && a[0] == b[0] {
      LexLeTotal(a[1..], b[1..]);
    }
  }

  lemma {:induction false} LexLeAntisymmetric(a: seq<int>, b: seq<int>)
    requires LexLe(a, b) && LexLe(b, a)
    ensures a == b
  {
    if |a| > 0 {
      LexLeAntisymmetric(a[1..], b[1..]);
      assert a == [a[0]] + a[1..] && b == [b[0]] + b[1..];
    }
  }

  lemma {:induction false} LexLeTransitive(a: seq<int>, b: seq<int>, c: seq<int>)
    requires LexLe(a, b) && LexLe(b, c)
    ensures LexLe(a, c)
  {
    if |a| > 0 && a[0] == b[0] && b[0] == c[0] {
      LexLeTransitive(a[1..], b[1..], c[1..]);
    }
  }

  lemma LexLeTotalOrder()
    ensures TotalOrder(LexLe)
  {
    forall a, b ensures LexLe(a, b) || LexLe(b, a) {
      LexLeTotal(a, b);
    }
    forall a, b | LexLe(a, b) && LexLe(b, a) ensures a == b {
      LexLeAntisymmetric(a, b);
    }
    forall a, b, c | LexLe(a, b) && LexLe(b, c) ensures LexLe(a, c) {
      LexLeTransitive(a, b, c);
    }
  }

  /** `map(int, parts)`: the error of the first part that is not a number. */
  function ParseInts(parts: seq<string>): (r: Result<seq<int>>)
    ensures r.Ok? ==> |r.value| == |parts| && forall i :: 0 <= i < |parts| ==> PyInt(parts[i]) == Ok(r.value[i])
    ensures r.Err? ==> r.error == ValueError
  {
    if parts == [] then Ok([])
    else
      match PyInt(parts[0])
      case Err(e) => Err(e)
      case Ok(n) =>
        match ParseInts(parts[1..])
        case Err(e) => Err(e)
        case Ok(rest) => Ok([n] + rest)
  }

  /** `tuple(map(int, entry.split('-')))` for each name, in listing order. */
  function MonthTuples(names: seq<string>): (r: Result<seq<seq<int>>>)
    ensures r.Ok? ==> |r.value| == |names| && forall i :: 0 <= i < |names| ==> ParseInts(SplitOn(names[i], '-')) == Ok(r.value[i])
    ensures r.Err? ==> r.error == ValueError
  {
    if names == [] then Ok([])
    else
      match ParseInts(SplitOn(names[0], '-'))
      case Err(e) => Err(e)
      case Ok(t) =>
        match MonthTuples(names[1..])
        case Err(e) => Err(e)
        case Ok(rest) => Ok([t] + rest)
  }

  /**
    `get_all_months` over the names listed in the entries directory: each
    distinct tuple once, ascending by year and then month. A name that is
    not numbers joined by `-` raises `ValueError`; a tuple with fewer than
    two numbers raises `IndexError` in the sort key.
  */
  function GetAllMonths(names: seq<string>): (r: Result<seq<seq<int>>>)
    ensures r.Ok? ==> forall i, j :: 0 <= i < j < |r.value| ==> LexLe(r.value[i], r.value[j]) && r.value[i] != r.value[j]
    ensures r.Ok? ==> MonthTuples(names).Ok? && forall t :: t in r.value <==> t in MonthTuples(names).value
    ensures r.Ok? ==> forall t <- r.value :: |t| >= 2
    ensures r.Err? ==> r.error == ValueError || r.error == IndexError
  {
    match MonthTuples(names)
    case Err(e) => Err(e)
    case Ok(ts) =>
      if exists t <- ts :: |t| < 2 then Err(IndexError)
      else
        LexLeTotalOrder();
        var sorted := Sort(ts, LexLe);
        SortElements(ts, LexLe);
        DedupSorted(sorted, LexLe);
        var r := Dedup(sorted);
        StrictlySorted(r);
        Ok(r)
  }

  /** A sorted sequence without adjacent repeats has no repeats at all. */
  lemma StrictlySorted(s: seq<seq<int>>)
    requires SortedBy(s, LexLe)
    requires forall i :: 0 <= i < |s| - 1 ==> s[i] != s[i + 1]
    ensures forall i, j :: 0 <= i < j < |s| ==> s[i] != s[j]
  {
    forall i, j | 0 <= i < j < |s| ensures s[i] != s[j] {
      if s[i] == s[j] {
        assert LexLe(s[i], s[i + 1]) && LexLe(s[i + 1], s[j]);
        LexLeAntisymmetric(s[i], s[i + 1]);
        assert false;
      }
    }
  }

  /**
    For an entries directory holding only month directories (as `edit_date`
    names them), `get_all_months` lists exactly the months of those dates,
    as `(year, month)` pairs.
  */
  lemma AllMonthsOfEntries(names: seq<string>, dates: seq<Date>)
    requires |names| == |dates|
    requires forall i :: 0 <= i < |dates| ==> ValidDate(dates[i]) && dates[i].year >= 1900 && MonthName(dates[i]) == Ok(names[i])
    ensures GetAllMonths(names).Ok?
    ensures forall t :: t in GetAllMonths(names).value <==> exists i :: 0 <= i < |dates| && t == [dates[i].year, dates[i].month]
  {
    forall i | 0 <= i < |names|
      ensures ParseInts(SplitOn(names[i], '-')) == Ok([dates[i].year, dates[i].month])
    {
      MonthNameParses(dates[i]);
      var fields := SplitOn(names[i], '-');
      assert fields == [fields[0], fields[1]];
      ParseIntsPair(fields[0], fields[1]);
    }
    MonthTuplesPairs(names, dates);
  }

  lemma ParseIntsPair(a: string, b: string)
    requires PyInt(a).Ok? && PyInt(b).Ok?
    ensures ParseInts([a, b]) == Ok([PyInt(a).value, PyInt(b).value])
  {
    assert [a, b][1..] == [b];
    assert [b][1..] == [];
    assert ParseInts([]) == Ok([]);
    assert ParseInts([b]) == Ok([PyInt(b).value] + []);
    assert [PyInt(b).value] + [] == [PyInt(b).value];
    assert ParseInts([a, b]) == Ok([PyInt(a).value] + [PyInt(b).value]);
    assert [PyInt(a).value] + [PyInt(b).value] == [PyInt(a).value, PyInt(b).value];
  }

  lemma MonthTuplesPairs(names: seq<string>, dates: seq<Date>)
    requires |names| == |dates|
    requires forall i :: 0 <= i < |names| ==> ParseInts(SplitOn(names[i], '-')) == Ok([dates[i].year, dates[i].month])
    ensures MonthTuples(names).Ok?
    ensures forall i :: 0 <= i < |names| ==> MonthTuples(names).value[i] == [dates[i].year, dates[i].month]
  {
    if names != [] {
      MonthTuplesPairs(names[1..], dates[1..]);
    }
  }

  // ---------------------------------------------------------------------
  // parse_date

  /** The text the named groups of a matching pattern captured. */
  datatype Groups = Groups(year: string, month: string, day: string)

  /** `s[i..i + n]` is `\d{n}`: ASCII digits only (Python 2 `re` without the UNICODE flag). */
  predicate DigitsAt(s: string, i: nat, n: nat) {
    i + n <= |s| && IsDigits(s[i..i + n])
  }

  /** `(?P<year>\d{4})-(?P<month>\d{2})-(?P<day>\d{2})`, matched at the start of `s`. */
  function MatchIso(s: string): Option<Groups> {
    if |s| >= 10 && DigitsAt(s, 0, 4) && s[4] == '-' && DigitsAt(s, 5, 2) && s[7] == '-' && DigitsAt(s, 8, 2)
    then Some(Groups(s[0..4], s[5..7], s[8..10]))
    else None
  }

  /** `(?P<month>\d{2})/(?P<day>\d{2})/(?P<year>\d{4})`, matched at the start of `s`. */
  function MatchUs(s: string): Option<Groups> {
    if |s| >= 10 && DigitsAt(s, 0, 2) && s[2] == '/' && DigitsAt(s, 3, 2) && s[5] == '/' && DigitsAt(s, 6, 4)
    then Some(Groups(s[6..10], s[0..2], s[3..5]))
    else None
  }

  /** `(?P<day>\d{2}).(?P<month>\d{2}).(?P<year>\d{4})`: each `.` is any character but a newline. */
  function MatchDotted(s: string): Option<Groups> {
    if |s| >= 10 && DigitsAt(s, 0, 2) && s[2] != '\n' && DigitsAt(s, 3, 2) && s[5] != '\n' && DigitsAt(s, 6, 4)
    then Some(Groups(s[6..10], s[3..5], s[0..2]))
    else None
  }

  /** The groups of the first of the three patterns that matches. */
  function FirstMatch(s: string): (r: Option<Groups>)
    ensures r.Some? ==> IsDigits(r.value.year) && IsDigits(r.value.month) && IsDigits(r.value.day)
    ensures r.Some? ==> |r.value.year| == 4 && |r.value.month| == 2 && |r.value.day| == 2
  {
    if MatchIso(s).Some? then MatchIso(s)
    else if MatchUs(s).Some? then MatchUs(s)
    else MatchDotted(s)
  }

  /**
    `parse_date(s)` on the day `today`: the two keywords, then the three
    patterns in order; `None` when nothing matches. A match naming a date
    that does not exist raises `ValueError`.
  */
  function ParseDate(s: string, today: Date): (r: Result<Option<Date>>)
    requires ValidDate(today)
    ensures r.Ok? && r.value.Some? ==> ValidDate(r.value.value)
    ensures r.Ok? && r.value.None? <==> s != "today" && s != "yesterday" && FirstMatch(s).None?
    ensures r.Err? ==> r.error == ValueError || (s == "yesterday" && r.error == OverflowError)
    ensures s == "today" ==> r == Ok(Some(today))
    ensures s == "yesterday" && today != Date(1, 1, 1) ==>
      r.Ok? && r.value.Some? && Ordinal(r.value.value) + 1 == Ordinal(today)
    ensures s == "yesterday" && today == Date(1, 1, 1) ==> r == Err(OverflowError)
  {
    if s == "today" then Ok(Some(today))
    else if s == "yesterday" then
      match DayBefore(today)
      case Err(e) => Err(e)
      case Ok(d) => DayBeforeOrdinal(today); Ok(Some(d))
    else
      match FirstMatch(s)
      case None => Ok(None)
      case Some(g) =>
        match MakeDate(DecValue(g.year), DecValue(g.month), DecValue(g.day))
        case Err(e) => Err(e)
        case Ok(d) => Ok(Some(d))
  }

  /** `str(date)`: the ISO 8601 calendar date, `YYYY-MM-DD`. */
  function IsoFormat(d: Date): (r: string)
    requires ValidDate(d)
    ensures |r| == 10
  {
    PadDec(d.year, 4) + "-" + PadDec(d.month, 2) + "-" + PadDec(d.day, 2)
  }

  /** Every date, written as ISO 8601 does, is read back as itself. */
  lemma ParseIsoFormat(d: Date, today: Date)
    requires ValidDate(d) && ValidDate(today)
    ensures ParseDate(IsoFormat(d), today) == Ok(Some(d))
  {
    var s := IsoFormat(d);
    var y, m, dd := PadDec(d.year, 4), PadDec(d.month, 2), PadDec(d.day, 2);
    assert s[0..4] == y && s[5..7] == m && s[8..10] == dd;
    assert s != "today" && s != "yesterday" by {
      assert |s| == 10;
    }
  }

  /** `MM/DD/YYYY`, the form of the second pattern. */
  function UsFormat(d: Date): (r: string)
    requires ValidDate(d)
    ensures |r| == 10
  {
    PadDec(d.month, 2) + "/" + PadDec(d.day, 2) + "/" + PadDec(d.year, 4)
  }

  /** Every date written month first, with slashes, is read back as itself. */
  lemma ParseUsFormat(d: Date, today: Date)
    requires ValidDate(d) && ValidDate(today)
    ensures ParseDate(UsFormat(d), today) == Ok(Some(d))
  {
    var s := UsFormat(d);
    var y, m, dd := PadDec(d.year, 4), PadDec(d.month, 2), PadDec(d.day, 2);
    assert s[0..2] == m && s[3..5] == dd && s[6..10] == y;
    assert MatchIso(s).None? by {
      assert !DigitsAt(s, 0, 4) by {
        assert s[0..4][2] == '/' && !IsDigit('/');
      }
    }
    assert s != "today" && s != "yesterday" by {
      assert |s| == 10;
    }
  }

  /** `DD<sep>MM<sep>YYYY`, the form of the third pattern, with any separator. */
  function DottedFormat(d: Date, sep: char): (r: string)
    requires ValidDate(d)
    ensures |r| == 10
  {
    PadDec(d.day, 2) + [sep] + PadDec(d.month, 2) + [sep] + PadDec(d.year, 4)
  }

  /**
    Every date written day first is read back as itself, whatever separates
    the fields, except a newline (which the pattern's `.` does not match)
    and a slash (with which the second pattern reads it month first).
  */
  lemma ParseDottedFormat(d: Date, sep: char, today: Date)
    requires ValidDate(d) && ValidDate(today)
    requires sep != '\n' && sep != '/'
    ensures ParseDate(DottedFormat(d, sep), today) == Ok(Some(d))
  {
    var s := DottedFormat(d, sep);
    var y, m, dd := PadDec(d.year, 4), PadDec(d.month, 2), PadDec(d.day, 2);
    assert s[0..2] == dd && s[3..5] == m && s[6..10] == y;
    assert s[2] == sep && s[5] == sep;
    assert MatchIso(s).None? by {
      if DigitsAt(s, 0, 4) {
        assert s[4] == m[1];
      }
    }
    assert s != "today" && s != "yesterday" by {
      assert |s| == 10;
    }
  }

  /** Matching is anchored at the start only: whatever follows a recognised date is ignored. */
  lemma ParseDateIgnoresRest(s: string, rest: string, today: Date)
    requires ValidDate(today)
    requires FirstMatch(s).Some?
    ensures ParseDate(s + rest, today) == ParseDate(s, today)
  {
    var t := s + rest;
    assert t[..10] == s[..10];
    assert t[0..4] == s[0..4] && t[5..7] == s[5..7] && t[8..10] == s[8..10];
    assert t[0..2] == s[0..2] && t[3..5] == s[3..5] && t[6..10] == s[6..10];
    assert |s| >= 10 by {
      if MatchIso(s).None? && MatchUs(s).None? {
        assert MatchDotted(s).Some?;
      }
    }
    assert s != "today" && s != "yesterday" && t != "today" && t != "yesterday";
  }

  lemma DecExamples()
    ensures DecValue("2011") == 2011 && DecValue("03") == 3 && DecValue("04") == 4
    ensures DecValue("30") == 30 && DecValue("02") == 2
  {
    assert "2011"[..3] == "201" && "201"[..2] == "20" && "20"[..1] == "2";
    assert "03"[..1] == "0" && "04"[..1] == "0" && "30"[..1] == "3" && "02"[..1] == "0";
  }

  /** The first pattern that matches wins: `03/04/2011` is March 4th, although the third pattern reads April 3rd. */
  lemma FirstPatternWins(today: Date)
    requires ValidDate(today)
    ensures MatchDotted("03/04/2011") == Some(Groups("2011", "04", "03"))
    ensures ParseDate("03/04/2011", today) == Ok(Some(Date(2011, 3, 4)))
  {
    var s := "03/04/2011";
    assert s[6..10] == "2011" && s[0..2] == "03" && s[3..5] == "04";
    assert MatchIso(s).None? by {
      assert s[4] == '4';
    }
    assert FirstMatch(s) == Some(Groups("2011", "03", "04"));
    ParseMarch4th(s, today);
  }

  /** Any character stands between the fields of the third pattern. */
  lemma DottedPattern(today: Date)
    requires ValidDate(today)
    ensures ParseDate("04.03.2011", today) == Ok(Some(Date(2011, 3, 4)))
  {
    var s := "04.03.2011";
    assert s[6..10] == "2011" && s[0..2] == "04" && s[3..5] == "03";
    assert MatchIso(s).None? by {
      assert s[4] == '3';
    }
    assert MatchUs(s).None? by {
      assert s[2] == '.';
    }
    assert FirstMatch(s) == Some(Groups("2011", "03", "04"));
    ParseMarch4th(s, today);
  }

  lemma ParseMarch4th(s: string, today: Date)
    requires ValidDate(today) && |s| == 10
    requires FirstMatch(s) == Some(Groups("2011", "03", "04"))
    ensures ParseDate(s, today) == Ok(Some(Date(2011, 3, 4)))
  {
    DecExamples();
  }

  /** A match that names no date raises `ValueError`. */
  lemma ParseDateInvalid(today: Date)
    requires ValidDate(today)
    ensures ParseDate("2011-02-30", today) == Err(ValueError)
  {
    var s := "2011-02-30";
    assert s[0..4] == "2011" && s[5..7] == "02" && s[8..10] == "30";
    assert FirstMatch(s) == Some(Groups("2011", "02", "30"));
    ParseFeb30th(s, today);
  }

  lemma ParseFeb30th(s: string, today: Date)
    requires ValidDate(today) && |s| == 10
    requires FirstMatch(s) == Some(Groups("2011", "02", "30"))
    ensures ParseDate(s, today) == Err(ValueError)
  {
    DecExamples();
  }

  /** A string no pattern matches gives `None`. */
  lemma ParseDateNoMatch(today: Date)
    requires ValidDate(today)
    ensures ParseDate("2011-02", today) == Ok(None)
  {
    assert FirstMatch("2011-02").None?;
  }

  // ---------------------------------------------------------------------
  // get_char

  /** The keyboard as `getch` sees it: the codes still to come; `-1` (curses `ERR`) once there are none. */
  class Window {
    var keys: seq<int>

    constructor(keys: seq<int>)
      ensures this.keys == keys
    {
      this.keys := keys;
    }

    method GetCh() returns (c: int)
      modifies this
      ensures c == KeyAt(old(keys), 0)
      ensures keys == if old(keys) == [] then [] else old(keys)[1..]
    {
      if keys == [] {
        return -1;
      }
      c := keys[0];
      keys := keys[1..];
    }
  }

  function KeyAt(keys: seq<int>, i: nat): int {
    if i < |keys| then keys[i] else -1
  }

  /** What `get_char` returns: a single key code, or the bytes of one multibyte character. */
  datatype Key = Code(code: int) | Chars(bytes: seq<int>)

  /**
    How many continuation bytes follow lead byte `c`: 1, 2 and 3 for the
    lead bytes of 2-, 3- and 4-byte sequences of section 4 of RFC 3629;
    0 for anything else.
  */
  function Continuations(c: int): (n: nat)
    ensures n <= 3
  {
    if 194 <= c <= 223 then 1
    else if 224 <= c <= 239 then 2
    else if 240 <= c <= 244 then 3
    else 0
  }

  predicate IsContinuation(b: int) {
    128 <= b <= 191
  }

  /** The first position of `1..n` whose byte is not a continuation byte (`n + 1` if none). */
  function FirstBad(keys: seq<int>, i: nat, n: nat): (b: nat)
    requires 1 <= i <= n + 1
    ensures i <= b <= n + 1
    ensures forall k :: i <= k < b ==> IsContinuation(KeyAt(keys, k))
    ensures b <= n ==> !IsContinuation(KeyAt(keys, b))
    decreases n + 1 - i
  {
    if i > n || !IsContinuation(KeyAt(keys, i)) then i else FirstBad(keys, i + 1, n)
  }

  /**
    What `get_char` reads from `keys` and how many codes it consumes: the
    lead byte and its continuation bytes; at the first byte that is not a
    continuation byte, `UnicodeError` (that byte is consumed too).
  */
  function ReadKey(keys: seq<int>): (r: (Result<Key>, nat))
    ensures r.1 <= |keys|
    ensures r.0.Ok? && r.0.value.Chars? ==> r.1 == 1 + Continuations(KeyAt(keys, 0)) && r.0.value.bytes == keys[..r.1]
    ensures r.0.Ok? && r.0.value.Code? ==> r.0.value.code == KeyAt(keys, 0) && Continuations(KeyAt(keys, 0)) == 0
    ensures r.0.Err? ==> r.0.error == UnicodeError
    ensures var n := Continuations(KeyAt(keys, 0));
      r.0.Err? <==> n > 0 && FirstBad(keys, 1, n) <= n
    ensures var n := Continuations(KeyAt(keys, 0));
      r.0.Err? ==> r.1 == if FirstBad(keys, 1, n) < |keys| then FirstBad(keys, 1, n) + 1 else |keys|
  {
    var c := KeyAt(keys, 0);
    var n := Continuations(c);
    if c <= 127 || n == 0 then (Ok(Code(c)), if keys == [] then 0 else 1)
    else
      var b := FirstBad(keys, 1, n);
      if b <= n then (Err(UnicodeError), if b + 1 <= |keys| then b + 1 else |keys|)
      else
        assert IsContinuation(KeyAt(keys, n)) && n < |keys|;
        (Ok(Chars(keys[..n + 1])), n + 1)
  }

  /** The UTF-8 encoding of code point `cp`, as section 3 of RFC 3629 defines it. */
  function Utf8Encode(cp: int): (r: seq<int>)
    requires 0 <= cp <= 0x10FFFF && !(0xD800 <= cp <= 0xDFFF)
    ensures 1 <= |r| <= 4
  {
    if cp < 0x80 then [cp]
    else if cp < 0x800 then [0xC0 + cp / 64, 0x80 + cp % 64]
    else if cp < 0x10000 then [0xE0 + cp / 4096, 0x80 + cp / 64 % 64, 0x80 + cp % 64]
    else [0xF0 + cp / 262144, 0x80 + cp / 4096 % 64, 0x80 + cp / 64 % 64, 0x80 + cp % 64]
  }

  /** A character beyond ASCII is read as the bytes of its UTF-8 sequence, and nothing after them. */
  lemma ReadKeyUtf8(cp: int, rest: seq<int>)
    requires 0x80 <= cp <= 0x10FFFF && !(0xD800 <= cp <= 0xDFFF)
    ensures ReadKey(Utf8Encode(cp) + rest) == (Ok(Chars(Utf8Encode(cp))), |Utf8Encode(cp)|)
  {
    var e := Utf8Encode(cp);
    var keys := e + rest;
    assert keys[..|e|] == e;
    assert Continuations(e[0]) == |e| - 1;
    assert forall k :: 1 <= k < |e| ==> KeyAt(keys, k) == e[k] && IsContinuation(e[k]);
  }

  /** An ASCII code is read on its own. */
  lemma ReadKeyAscii(c: int, rest: seq<int>)
    requires 0 <= c <= 127
    ensures ReadKey([c] + rest) == (Ok(Code(c)), 1)
  {
  }

  /**
    Only the lead byte decides the length: the continuation bytes are not
    checked against the lead as section 4 of RFC 3629 asks, so an overlong
    form is read as a character, while a byte out of place raises.
  */
  lemma ReadKeyLoose()
    ensures ReadKey([0xE0, 0x80, 0x80]) == (Ok(Chars([0xE0, 0x80, 0x80])), 3)
    ensures ReadKey([0xD0, 0x41, 0x42]) == (Err(UnicodeError), 2)
    ensures ReadKey([0xC3]) == (Err(UnicodeError), 1)
  {
    assert [0xE0, 0x80, 0x80][..3] == [0xE0, 0x80, 0x80];
  }

  /** `get_check_next_byte`: the next code, if it is a continuation byte. */
  method GetCheckNextByte(win: Window) returns (r: Result<int>)
    modifies win
    ensures r == (if IsContinuation(KeyAt(old(win.keys), 0)) then Ok(KeyAt(old(win.keys), 0)) else Err(UnicodeError))
    ensures win.keys == if old(win.keys) == [] then [] else old(win.keys)[1..]
  {
    var c := win.GetCh();
    if 128 <= c <= 191 {
      return Ok(c);
    }
    return Err(UnicodeError);
  }

  /** `get_char(win)`: reads one character, as `ReadKey` says, and consumes what it read. */
  method GetChar(win: Window) returns (r: Result<Key>)
    modifies win
    ensures r == ReadKey(old(win.keys)).0
    ensures win.keys == old(win.keys)[ReadKey(old(win.keys)).1..]
  {
    ghost var keys := win.keys;
    var c := win.GetCh();
    if c <= 127 {
      return Ok(Code(c));
    } else if 194 <= c <= 223 {
      var b1 := GetCheckNextByte(win);
      if b1.Err? {
        return Err(b1.error);
      }
      assert keys[..2] == [c, b1.value];
      return Ok(Chars([c, b1.value]));
    } else if 224 <= c <= 239 {
      var b1 := GetCheckNextByte(win);
      if b1.Err? {
        return Err(b1.error);
      }
      var b2 := GetCheckNextByte(win);
      if b2.Err? {
        return Err(b2.error);
      }
      assert keys[..3] == [c, b1.value, b2.value];
      return Ok(Chars([c, b1.value, b2.value]));
    } else if 240 <= c <= 244 {
      var b1 := GetCheckNextByte(win);
      if b1.Err? {
        return Err(b1.error);
      }
      var b2 := GetCheckNextByte(win);
      if b2.Err? {
        return Err(b2.error);
      }
      var b3 := GetCheckNextByte(win);
      if b3.Err? {
        return Err(b3.error);
      }
      assert keys[..4] == [c, b1.value, b2.value, b3.value];
      return Ok(Chars([c, b1.value, b2.value, b3.value]));
    } else {
      return Ok(Code(c));
    }
  }
}

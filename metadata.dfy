// metadata.py: the statistics kept for every day of a month (lines, words,
// tags, size and edit history of its entry), the tag index built from them,
// and the registry that keeps one such object per month.

module MonthMetadata {
  import opened Wrappers
  import opened Strings
  import opened Sorting
  import opened Dates
  import opened Revisions
  import opened Journal
  import opened Utils

  // ---------------------------------------------------------------------
  // Counting the lines of an entry (load_day)

  /** The lines of a file as `for line in f` reads them (their `\n` makes no difference below). */
  function Lines(text: string): seq<string> {
    SplitOn(text, '\n')
  }

  /** The tags of a tag line: the text after the label, split on `,`, each stripped. */
  function TagsOf(line: string, tagsLabel: string): seq<string>
    requires StartsWith(line, tagsLabel)
  {
    MapSeq(Strip, SplitOn(line[|tagsLabel|..], ','))
  }

  predicate IsTagLine(line: string, tagsLabel: string) {
    Strip(line) != [] && StartsWith(line, tagsLabel)
  }

  predicate IsCountedLine(line: string, tagsLabel: string) {
    Strip(line) != [] && !StartsWith(line, tagsLabel)
  }

  datatype Stats = Stats(lines: nat, words: nat, tags: seq<string>)

  /** One turn of `load_day`'s loop. */
  function Step(st: Stats, line: string, tagsLabel: string): Stats {
    if Strip(line) == [] then st
    else if StartsWith(line, tagsLabel) then st.(tags := st.tags + TagsOf(line, tagsLabel))
    else Stats(st.lines + 1, st.words + |Words(line)|, st.tags)
  }

  /** The counters after `load_day`'s loop has read `ls`. */
  function Tally(ls: seq<string>, tagsLabel: string): Stats
    decreases |ls|
  {
    if ls == [] then Stats(0, 0, [])
    else Step(Tally(ls[..|ls| - 1], tagsLabel), ls[|ls| - 1], tagsLabel)
  }

  /** The counted lines: neither blank nor tag lines. */
  function CountedLines(ls: seq<string>, tagsLabel: string): (r: seq<string>)
    ensures forall l <- r :: l in ls && IsCountedLine(l, tagsLabel)
  {
    if ls == [] then []
    else (if IsCountedLine(ls[0], tagsLabel) then [ls[0]] else []) + CountedLines(ls[1..], tagsLabel)
  }

  /** `sum(len(line.split()) for line in ls)` */
  function WordCount(ls: seq<string>): nat {
    if ls == [] then 0 else |Words(ls[0])| + WordCount(ls[1..])
  }

  /** The tags of every tag line, in order. */
  function TagLines(ls: seq<string>, tagsLabel: string): seq<string> {
    if ls == [] then []
    else (if IsTagLine(ls[0], tagsLabel) then TagsOf(ls[0], tagsLabel) else []) + TagLines(ls[1..], tagsLabel)
  }

  lemma {:induction false} CountedLinesAppend(a: seq<string>, b: seq<string>, tagsLabel: string)
    ensures CountedLines(a + b, tagsLabel) == CountedLines(a, tagsLabel) + CountedLines(b, tagsLabel)
    decreases |a|
  {
    if a == [] {
      assert a + b == b;
    } else {
      assert (a + b)[1..] == a[1..] + b;
      CountedLinesAppend(a[1..], b, tagsLabel);
    }
  }

  lemma {:induction false} TagLinesAppend(a: seq<string>, b: seq<string>, tagsLabel: string)
    ensures TagLines(a + b, tagsLabel) == TagLines(a, tagsLabel) + TagLines(b, tagsLabel)
    decreases |a|
  {
    if a == [] {
      assert a + b == b;
    } else {
      assert (a + b)[1..] == a[1..] + b;
      TagLinesAppend(a[1..], b, tagsLabel);
    }
  }

  lemma {:induction false} WordCountAppend(a: seq<string>, b: seq<string>)
    ensures WordCount(a + b) == WordCount(a) + WordCount(b)
    decreases |a|
  {
    if a == [] {
      assert a + b == b;
    } else {
      assert (a + b)[1..] == a[1..] + b;
      WordCountAppend(a[1..], b);
    }
  }

  /**
    `load_day` counts the lines that are neither blank nor tag lines, and the
    whitespace-separated words of those lines only; the tags are those of the
    tag lines, in order.
  */
  lemma {:induction false} TallyCounts(ls: seq<string>, tagsLabel: string)
    ensures Tally(ls, tagsLabel).lines == |CountedLines(ls, tagsLabel)|
    ensures Tally(ls, tagsLabel).words == WordCount(CountedLines(ls, tagsLabel))
    ensures Tally(ls, tagsLabel).tags == TagLines(ls, tagsLabel)
    decreases |ls|
  {
    if ls != [] {
      var init, x := ls[..|ls| - 1], ls[|ls| - 1];
      TallyCounts(init, tagsLabel);
      assert ls == init + [x];
      TallySnoc(init, x, tagsLabel);
    }
  }

  lemma TallySnoc(init: seq<string>, x: string, tagsLabel: string)
    requires Tally(init, tagsLabel).lines == |CountedLines(init, tagsLabel)|
    requires Tally(init, tagsLabel).words == WordCount(CountedLines(init, tagsLabel))
    requires Tally(init, tagsLabel).tags == TagLines(init, tagsLabel)
    ensures Tally(init + [x], tagsLabel).lines == |CountedLines(init + [x], tagsLabel)|
    ensures Tally(init + [x], tagsLabel).words == WordCount(CountedLines(init + [x], tagsLabel))
    ensures Tally(init + [x], tagsLabel).tags == TagLines(init + [x], tagsLabel)
  {
    assert (init + [x])[..|init|] == init;
    CountedLinesSnoc(init, x, tagsLabel);
    TagLinesSnoc(init, x, tagsLabel);
    WordCountSnoc(init, x, tagsLabel);
  }

  lemma CountedLinesSnoc(init: seq<string>, x: string, tagsLabel: string)
    ensures CountedLines(init + [x], tagsLabel) == CountedLines(init, tagsLabel) + (if IsCountedLine(x, tagsLabel) then [x] else [])
  {
    assert [x][1..] == [];
    CountedLinesAppend(init, [x], tagsLabel);
  }

  lemma TagLinesSnoc(init: seq<string>, x: string, tagsLabel: string)
    ensures TagLines(init + [x], tagsLabel) == TagLines(init, tagsLabel) + (if IsTagLine(x, tagsLabel) then TagsOf(x, tagsLabel) else [])
  {
    assert [x][1..] == [];
    TagLinesAppend(init, [x], tagsLabel);
  }

  lemma WordCountSnoc(init: seq<string>, x: string, tagsLabel: string)
    ensures WordCount(CountedLines(init + [x], tagsLabel)) == WordCount(CountedLines(init, tagsLabel)) + (if IsCountedLine(x, tagsLabel) then |Words(x)| else 0)
  {
    CountedLinesSnoc(init, x, tagsLabel);
    var t := if IsCountedLine(x, tagsLabel) then [x] else [];
    assert [x][1..] == [];
    WordCountAppend(CountedLines(init, tagsLabel), t);
  }

  /** Every counted line has at least one word. */
  lemma {:induction false} WordsAtLeastLines(ls: seq<string>, tagsLabel: string)
    ensures Tally(ls, tagsLabel).lines <= Tally(ls, tagsLabel).words
    decreases |ls|
  {
    if ls != [] {
      var x := ls[|ls| - 1];
      WordsAtLeastLines(ls[..|ls| - 1], tagsLabel);
      if Strip(x) != [] && !StartsWith(x, tagsLabel) {
        WordsOfStripped(x);
      }
    }
  }

  // ---------------------------------------------------------------------
  // A day's record

  /** The edit summary `_get_edits` stores: nothing, `[created]`, or `[created, last, edits after creation]`. */
  function EditsSummary(edits: seq<Edit>): (r: Option<seq<int>>)
    ensures r.None? <==> edits == []
    ensures r.Some? ==> |r.value| == (if |edits| == 1 then 1 else 3)
  {
    if edits == [] then None
    else if |edits| == 1 then Some([edits[0].ts])
    else Some([edits[0].ts, edits[|edits| - 1].ts, |edits| - 1])
  }

  /**
    On the sorted list `get_edits` returns, the summary holds the earliest
    time (the creation), the latest time, and the number of later edits.
  */
  lemma SummaryOfSorted(edits: seq<Edit>)
    requires edits != [] && SortedBy(edits, EditLe)
    ensures var s := EditsSummary(edits).value;
      (forall e <- edits :: s[0] <= e.ts) &&
      (|edits| > 1 ==> (forall e <- edits :: e.ts <= s[1]) && s[2] == |edits| - 1)
  {
    var s := EditsSummary(edits).value;
    forall e <- edits ensures s[0] <= e.ts && (|edits| > 1 ==> e.ts <= s[1]) {
      var i :| 0 <= i < |edits| && edits[i] == e;
      if i > 0 {
        assert EditLe(edits[0], edits[i]);
      }
      if i < |edits| - 1 {
        assert EditLe(edits[i], edits[|edits| - 1]);
      }
    }
  }

  /** What `yaml` stores for one day. */
  datatype DayData = DayData(lines: nat, words: nat, tags: seq<string>, size: string, edits: Option<seq<int>>)

  /** The files the statistics are read from: the entries tree, and `get_edits` for each date. */
  datatype Disk = Disk(entries: map<string, Node>, edits: Date -> Result<seq<Edit>>)

  /** Locale- and clock-dependent formatting: `format_date`, `format_time`, and `format_size` above 1 KiB. */
  datatype Formats = Formats(date: Date -> string, time: int -> string, kib: int -> string)

  /** `format_size` */
  function SizeText(size: nat, fmt: Formats): (r: string)
    ensures size <= 1024 ==> r == FormatSize(size).value
  {
    match FormatSize(size)
    case Some(s) => s
    case None => fmt.kib(size)
  }

  /**
    What `load_day` stores for `day`: nothing when the entry cannot be read,
    an error when the date does not exist or `get_edits` fails.
  */
  function DayRecord(year: int, month: int, day: int, disk: Disk, fmt: Formats, tagsLabel: string): (r: Result<Option<DayData>>)
    ensures !ValidDate(Date(year, month, day)) || year < 1900 ==> r == Err(ValueError)
    ensures r == Ok(None) <==> (ValidDate(Date(year, month, day)) && year >= 1900 &&
      FileIn(Sub(disk.entries, MonthName(Date(year, month, day)).value), DayName(Date(year, month, day))).None?)
    ensures r.Ok? && r.value.Some? ==>
      (disk.edits(Date(year, month, day)).Ok? && (r.value.value.edits.Some? <==> disk.edits(Date(year, month, day)).value != []))
  {
    match MakeDate(year, month, day)
    case Err(e) => Err(e)
    case Ok(date) =>
      match MonthName(date)
      case Err(e) => Err(e)
      case Ok(m) =>
        match FileIn(Sub(disk.entries, m), DayName(date))
        case None => Ok(None)
        case Some(text) =>
          var st := Tally(Lines(text), tagsLabel);
          match disk.edits(date)
          case Err(e) => Err(e)
          case Ok(edits) => Ok(Some(DayData(st.lines, st.words, st.tags, SizeText(|text|, fmt), EditsSummary(edits))))
  }

  // ---------------------------------------------------------------------
  // The tag index (_load_tags)

  function Got(tags: map<string, seq<int>>, t: string): seq<int> {
    if t in tags then tags[t] else []
  }

  /** `tags` lists each day once per occurrence of the tag in that day's record, and nothing else. */
  ghost predicate Inverted(data: map<int, DayData>, tags: map<string, seq<int>>) {
    (forall t <- tags :: tags[t] != []) &&
    forall t, d :: multiset(Got(tags, t))[d] == if d in data then multiset(data[d].tags)[t] else 0
  }

  /** A tag is in the index exactly when some day carries it. */
  lemma InvertedKeys(data: map<int, DayData>, tags: map<string, seq<int>>, t: string)
    requires Inverted(data, tags)
    ensures t in tags <==> exists d :: d in data && t in data[d].tags
  {
    if t in tags {
      var d := tags[t][0];
      assert multiset(Got(tags, t))[d] > 0;
      assert d in data && t in data[d].tags;
    }
    if d :| d in data && t in data[d].tags {
      assert multiset(data[d].tags)[t] > 0;
      assert multiset(Got(tags, t))[d] > 0;
    }
  }

  /** The index built from the same records is the same up to the order of each list. */
  lemma InvertedUnique(data: map<int, DayData>, a: map<string, seq<int>>, b: map<string, seq<int>>)
    requires Inverted(data, a) && Inverted(data, b)
    ensures a.Keys == b.Keys
    ensures forall t <- a :: multiset(a[t]) == multiset(b[t])
  {
    forall t ensures t in a <==> t in b {
      InvertedKeys(data, a, t);
      InvertedKeys(data, b, t);
    }
    forall t <- a ensures multiset(a[t]) == multiset(b[t]) {
      assert Got(a, t) == a[t] && Got(b, t) == b[t];
      forall d ensures multiset(a[t])[d] == multiset(b[t])[d] {
        assert multiset(Got(a, t))[d] == (if d in data then multiset(data[d].tags)[t] else 0);
      }
    }
  }

  /** The days whose record carries `t`, each once per occurrence of `t` in that record. */
  ghost function TagDays(data: map<int, DayData>, t: string): (m: multiset<int>)
    ensures forall d :: m[d] == if d in data then multiset(data[d].tags)[t] else 0
    decreases |data|
  {
    if data == map[] then multiset{}
    else
      HasKey(data);
      var d :| d in data;
      TagDays(data - {d}, t)[d := multiset(data[d].tags)[t]]
  }

  /** A map of days that is not empty has a day. */
  lemma HasKey<V>(m: map<int, V>)
    requires m != map[]
    ensures exists k :: k in m
  {
    if forall k :: k !in m {
      assert false;
    }
  }

  /** The index lists for `t` exactly the days `TagDays` gives. */
  lemma InvertedTagDays(data: map<int, DayData>, tags: map<string, seq<int>>, t: string)
    requires Inverted(data, tags)
    ensures multiset(Got(tags, t)) == TagDays(data, t)
    ensures |Got(tags, t)| == |TagDays(data, t)|
  {
    forall d ensures multiset(Got(tags, t))[d] == TagDays(data, t)[d] {
    }
  }

  /** Every saved month holds the index of its own records, as `write` leaves it. */
  ghost predicate Saved(files: map<string, Snapshot>) {
    forall p <- files :: Inverted(files[p].data, files[p].tags)
  }

  // ---------------------------------------------------------------------
  // text

  const NoEntry := "No entry for selected date"

  /** The last line of `text`: creation time, then the number of later edits and the last time if any. */
  function EditsLine(e: seq<int>, fmt: Formats): (r: string)
    requires |e| >= 1
    ensures StartsWith(r, "Created: ")
  {
    var created := "Created: " + fmt.time(e[0]);
    if |e| >= 3 then created + ", edited " + IntToDec(e[2]) + " times, last: " + fmt.time(e[1])
    else created
  }

  /** On a stored summary, the last line names the creation, the number of later edits and the latest edit. */
  lemma EditsLineOfSummary(edits: seq<Edit>, fmt: Formats)
    requires edits != []
    ensures var line := EditsLine(EditsSummary(edits).value, fmt);
      line == if |edits| == 1 then "Created: " + fmt.time(edits[0].ts)
        else "Created: " + fmt.time(edits[0].ts) + ", edited " + IntToDec(|edits| - 1) + " times, last: " + fmt.time(edits[|edits| - 1].ts)
  {
  }

  /** The metadata directory: one `yaml` file per month, named `<year>-<month>`. */
  class MetadataDir {
    var files: map<string, Snapshot>

    constructor(files: map<string, Snapshot>)
      ensures this.files == files
    {
      this.files := files;
    }
  }

  datatype Snapshot = Snapshot(data: map<int, DayData>, tags: map<string, seq<int>>)

  /** `'%d-%d' % (year, month)` */
  function PathOf(year: int, month: int): string {
    IntToDec(year) + "-" + IntToDec(month)
  }

  /** Distinct months have distinct metadata files. */
  lemma PathOfParses(year: nat, month: nat)
    ensures var fields := SplitOn(PathOf(year, month), '-');
      |fields| == 2 && PyInt(fields[0]) == Ok(year) && PyInt(fields[1]) == Ok(month)
  {
    var y, m := IntToDec(year), IntToDec(month);
    assert '-' !in y by {
      forall i | 0 <= i < |y| ensures y[i] != '-' {
        assert IsDigit(y[i]);
      }
    }
    assert '-' !in m by {
      forall i | 0 <= i < |m| ensures m[i] != '-' {
        assert IsDigit(m[i]);
      }
    }
    SplitAtFirst(y, '-', m);
    SplitNoSep(m, '-');
    assert PathOf(year, month) == y + ['-'] + m;
    IntToDecParses(year);
    IntToDecParses(month);
  }

  /** The statistics of one month. */
  class Metadata {
    const year: int
    const month: int
    /** `conf.tags_label` */
    const tagsLabel: string
    const dir: MetadataDir
    var data: map<int, DayData>
    var tags: map<string, seq<int>>
    var dirty: bool

    constructor(year: int, month: int, tagsLabel: string, dir: MetadataDir)
      ensures this.year == year && this.month == month && this.tagsLabel == tagsLabel && this.dir == dir
      ensures data == map[] && tags == map[] && !dirty
    {
      this.year, this.month, this.tagsLabel, this.dir := year, month, tagsLabel, dir;
      data, tags, dirty := map[], map[], false;
    }

    /** `get_path` */
    function Path(): string {
      PathOf(year, month)
    }

    /** `get_data_for_day`: the day's record, `None` when its entry was never read. */
    function DataForDay(day: int): (r: Option<DayData>)
      reads this
      ensures r.Some? <==> day in data
      ensures r.Some? ==> r.value == data[day]
    {
      if day in data then Some(data[day]) else None
    }

    /** `load_day`: reads the day's entry and stores its record. */
    method LoadDay(day: int, disk: Disk, fmt: Formats) returns (err: Option<Error>)
      modifies this
      ensures tags == old(tags)
      ensures match DayRecord(year, month, day, disk, fmt, tagsLabel)
        case Err(e) => err == Some(e) && data == old(data) && dirty == old(dirty)
        case Ok(None) => err == None && data == old(data) && dirty == old(dirty)
        case Ok(Some(rec)) => err == None && data == old(data)[day := rec] && dirty
    {
      var date := MakeDate(year, month, day);
      if date.Err? {
        return Some(date.error);
      }
      var m := MonthName(date.value);
      if m.Err? {
        return Some(m.error);
      }
      var entry := FileIn(Sub(disk.entries, m.value), DayName(date.value));
      if entry.None? {
        return None;
      }
      var lines, words, found := CountLines(Lines(entry.value));
      var edits := disk.edits(date.value);
      if edits.Err? {
        return Some(edits.error);
      }
      data := data[day := DayData(lines, words, found, SizeText(|entry.value|, fmt), EditsSummary(edits.value))];
      dirty := true;
      return None;
    }

    /** The loop of `load_day` over the lines of the entry. */
    method CountLines(ls: seq<string>) returns (lines: nat, words: nat, found: seq<string>)
      ensures Stats(lines, words, found) == Tally(ls, tagsLabel)
    {
      lines, words, found := 0, 0, [];
      for i := 0 to |ls|
        invariant Stats(lines, words, found) == Tally(ls[..i], tagsLabel)
      {
        var line := ls[i];
        assert ls[..i + 1][..i] == ls[..i];
        if Strip(line) == [] {
        } else if StartsWith(line, tagsLabel) {
          found := found + TagsOf(line, tagsLabel);
        } else {
          lines := lines + 1;
          words := words + |Words(line)|;
        }
      }
      assert ls[..|ls|] == ls;
    }

    /** `_load_tags`: rebuilds the tag index from the records, visiting the days in any order. */
    method LoadTags()
      modifies this
      ensures data == old(data) && dirty == old(dirty)
      ensures Inverted(data, tags)
    {
      tags := map[];
      var todo := data.Keys;
      ghost var done: set<int> := {};
      while todo != {}
        invariant data == old(data) && dirty == old(dirty)
        invariant todo + done == data.Keys && todo !! done
        invariant forall t <- tags :: tags[t] != []
        invariant forall t, d :: multiset(Got(tags, t))[d] == if d in done then multiset(data[d].tags)[t] else 0
        decreases todo
      {
        var day := Pick(todo);
        IndexDay(day);
        todo, done := todo - {day}, done + {day};
      }
    }

    /** The inner loop of `_load_tags`: appends `day` to the list of each of its tags. */
    method IndexDay(day: int)
      requires day in data
      modifies this
      ensures data == old(data) && dirty == old(dirty)
      ensures (forall t <- old(tags) :: old(tags)[t] != []) ==> forall t <- tags :: tags[t] != []
      ensures forall t, d ::
                multiset(Got(tags, t))[d] == multiset(Got(old(tags), t))[d] + (if d == day then multiset(data[day].tags)[t] else 0)
    {
      var ts := data[day].tags;
      for j := 0 to |ts|
        invariant data == old(data) && dirty == old(dirty)
        invariant NonEmptyLists(old(tags)) ==> NonEmptyLists(tags)
        invariant Appended(old(tags), tags, day, ts[..j])
      {
        var t := ts[j];
        ghost var prev := tags;
        if t in tags {
          tags := tags[t := tags[t] + [day]];
        } else {
          tags := tags[t := [day]];
          assert Got(prev, t) + [day] == [day];
        }
        IndexStep(old(tags), prev, tags, ts, j, day);
        if NonEmptyLists(prev) {
          AppendNonEmpty(prev, tags, t, day);
        }
      }
      assert ts[..|ts|] == ts;
    }

    /**
      `_load`: the saved file of the month when there is one; otherwise the
      record of every day of the month, and the tag index.
    */
    method Load(disk: Disk, fmt: Formats) returns (err: Option<Error>)
      requires data == map[] && tags == map[] && !dirty
      modifies this
      ensures Path() in dir.files ==>
        err == None && data == dir.files[Path()].data && tags == dir.files[Path()].tags && !dirty
      ensures Path() !in dir.files && LastDayOfMonth(year, month).Err? ==> err == Some(ValueError)
      ensures Path() !in dir.files && err.None? ==>
        LastDayOfMonth(year, month).Ok? && Loaded(data, year, month, disk, fmt, tagsLabel, LastDayOfMonth(year, month).value + 1) &&
        Inverted(data, tags) && (dirty <==> data != map[])
      ensures err.Some? && LastDayOfMonth(year, month).Ok? ==>
        FirstFailure(year, month, disk, fmt, tagsLabel, LastDayOfMonth(year, month).value, err.value)
    {
      if Path() in dir.files {
        data, tags := dir.files[Path()].data, dir.files[Path()].tags;
        return None;
      }
      var last := LastDayOfMonth(year, month);
      if last.Err? {
        return Some(last.error);
      }
      err := LoadDays(last.value, disk, fmt);
      if err.Some? {
        return;
      }
      LoadTags();
      return None;
    }

    /** The loop of `_load`: `load_day` for each day of the month, stopping at the first error. */
    method LoadDays(last: nat, disk: Disk, fmt: Formats) returns (err: Option<Error>)
      requires data == map[] && !dirty
      modifies this
      ensures err.None? ==> Loaded(data, year, month, disk, fmt, tagsLabel, last + 1) && (dirty <==> data != map[])
      ensures err.Some? ==> FirstFailure(year, month, disk, fmt, tagsLabel, last, err.value)
    {
      for day := 1 to last + 1
        invariant Loaded(data, year, month, disk, fmt, tagsLabel, day)
        invariant dirty <==> data != map[]
      {
        ghost var before, wasDirty := data, dirty;
        err := LoadDay(day, disk, fmt);
        if err.Some? {
          LoadedReadable(data, year, month, disk, fmt, tagsLabel, day);
          assert 1 <= day <= last && DayRecord(year, month, day, disk, fmt, tagsLabel) == Err(err.value);
          return;
        }
        ghost var rec := DayRecord(year, month, day, disk, fmt, tagsLabel);
        if rec.value.Some? {
          assert data == before[day := rec.value.value] && dirty;
          assert day in data;
          assert dirty <==> data != map[];
        } else {
          assert data == before && dirty == wasDirty;
          assert dirty <==> data != map[];
        }
        LoadedStep(before, data, year, month, disk, fmt, tagsLabel, day);
      }
      err := None;
    }

    /** `write`: saves the month, with a fresh tag index, only when a record changed. */
    method Write()
      modifies this, dir
      ensures data == old(data) && !dirty
      ensures old(dirty) ==> Inverted(data, tags) && dir.files == old(dir.files)[Path() := Snapshot(data, tags)]
      ensures !old(dirty) ==> tags == old(tags) && dir.files == old(dir.files)
    {
      if dirty {
        LoadTags();
        dir.files := dir.files[Path() := Snapshot(data, tags)];
        dirty := false;
      }
    }

    /**
      The lines of `text`: the date, then the statistics, the tags and the
      edit history, or a notice when there is no entry; `ValueError` for a
      date that does not exist or that `strftime` refuses, `IndexError` for a
      stored empty edit history.
    */
    function TextLines(day: int, fmt: Formats): (r: Result<seq<string>>)
      reads this
      ensures r.Err? <==> !ValidDate(Date(year, month, day)) || year < 1900 || (day in data && data[day].edits == Some([]))
      ensures r.Err? ==> r.error == if !ValidDate(Date(year, month, day)) || year < 1900 then ValueError else IndexError
      ensures r.Ok? ==> |r.value| >= 2 && r.value[0] == fmt.date(Date(year, month, day))
      ensures r.Ok? && (day !in data || data[day].edits.None?) ==> r.value[1..] == [NoEntry]
      ensures r.Ok? && day in data && data[day].edits.Some? ==>
        r.value[|r.value| - 1] == EditsLine(data[day].edits.value, fmt) &&
        (|r.value| == 4 <==> Join(data[day].tags, ", ") != "") && (|r.value| == 3 <==> Join(data[day].tags, ", ") == "")
    ensures r.Ok? && day in data && data[day].edits.Some? ==>
      r.value[1] == IntToDec(data[day].lines) + " lines, " + IntToDec(data[day].words) + " words, " + data[day].size &&
      (|r.value| == 4 ==> r.value[2] == "Tags: " + Join(data[day].tags, ", "))
    {
      if !ValidDate(Date(year, month, day)) || year < 1900 then Err(ValueError)
      else
        var head := [fmt.date(Date(year, month, day))];
        match DataForDay(day)
        case None => Ok(head + [NoEntry])
        case Some(rec) =>
          match rec.edits
          case None => Ok(head + [NoEntry])
          case Some(e) =>
            if e == [] then Err(IndexError)
            else
              var stats := IntToDec(rec.lines) + " lines, " + IntToDec(rec.words) + " words, " + rec.size;
              var tagText := Join(rec.tags, ", ");
              Ok(head + [stats] + (if tagText != "" then ["Tags: " + tagText] else []) + [EditsLine(e, fmt)])
    }

    /** `text`: the lines above, joined with newlines. */
    function Text(day: int, fmt: Formats): (r: Result<string>)
      reads this
      ensures r.Ok? <==> TextLines(day, fmt).Ok?
      ensures r.Ok? ==> StartsWith(r.value, fmt.date(Date(year, month, day)))
    {
      match TextLines(day, fmt)
      case Err(e) => Err(e)
      case Ok(ls) => Ok(Join(ls, "\n"))
    }
  }

  /** Some element of a non-empty set, as a dictionary's iteration yields its keys in no fixed order. */
  method Pick<T>(s: set<T>) returns (x: T)
    requires s != {}
    ensures x in s
  {
    x :| x in s;
  }

  predicate NonEmptyLists(tags: map<string, seq<int>>) {
    forall t <- tags :: tags[t] != []
  }

  /** `tags` is `start` with `day` appended once for every occurrence of a tag in `added`. */
  ghost predicate Appended(start: map<string, seq<int>>, tags: map<string, seq<int>>, day: int, added: seq<string>) {
    forall t, d :: multiset(Got(tags, t))[d] == multiset(Got(start, t))[d] + (if d == day then multiset(added)[t] else 0)
  }

  /** One turn of the inner loop of `_load_tags` keeps its invariant. */
  lemma IndexStep(start: map<string, seq<int>>, prev: map<string, seq<int>>, tags: map<string, seq<int>>, ts: seq<string>, j: nat, day: int)
    requires j < |ts| && tags == prev[ts[j] := Got(prev, ts[j]) + [day]]
    requires Appended(start, prev, day, ts[..j])
    ensures Appended(start, tags, day, ts[..j + 1])
  {
    assert ts[..j + 1] == ts[..j] + [ts[j]];
    var before, after := multiset(ts[..j]), multiset(ts[..j + 1]);
    assert after == before + multiset{ts[j]};
    forall u, d ensures multiset(Got(tags, u))[d] == multiset(Got(start, u))[d] + (if d == day then after[u] else 0) {
      AppendTag(prev, tags, ts[j], day, u, d);
      assert multiset(Got(prev, u))[d] == multiset(Got(start, u))[d] + (if d == day then before[u] else 0);
    }
  }

  /** Appending to a list keeps every list non-empty. */
  lemma AppendNonEmpty(prev: map<string, seq<int>>, tags: map<string, seq<int>>, t: string, day: int)
    requires NonEmptyLists(prev) && tags == prev[t := Got(prev, t) + [day]]
    ensures NonEmptyLists(tags)
  {
  }

  /** Appending `day` to the list of tag `t` adds one occurrence of the pair and changes nothing else. */
  lemma AppendTag(prev: map<string, seq<int>>, tags: map<string, seq<int>>, t: string, day: int, u: string, d: int)
    requires tags == prev[t := Got(prev, t) + [day]]
    ensures multiset(Got(tags, u))[d] == multiset(Got(prev, u))[d] + (if u == t && d == day then 1 else 0)
  {
    if u != t {
      assert Got(tags, u) == Got(prev, u);
    }
  }

  /** The records `_load` computes for the days before `upTo` when no file was saved. */
  ghost predicate Loaded(data: map<int, DayData>, year: int, month: int, disk: Disk, fmt: Formats, tagsLabel: string, upTo: int) {
    LoadedBy(data, d => DayRecord(year, month, d, disk, fmt, tagsLabel), upTo)
  }

  /** `data` holds the record `recs(d)` of every day before `upTo` that has one, and nothing else. */
  ghost predicate LoadedBy(data: map<int, DayData>, recs: int -> Result<Option<DayData>>, upTo: int) {
    (forall d :: 1 <= d < upTo ==> recs(d).Ok?) &&
    (forall d :: d in data <==> 1 <= d < upTo && recs(d).value.Some?) &&
    (forall d <- data :: data[d] == recs(d).value.value)
  }

  /** The records `_load` reads from the entries of days `1..last` that have one. */
  ghost function Records(year: int, month: int, disk: Disk, fmt: Formats, tagsLabel: string, last: int): map<int, DayData> {
    map d | 1 <= d <= last && DayRecord(year, month, d, disk, fmt, tagsLabel).Ok? && DayRecord(year, month, d, disk, fmt, tagsLabel).value.Some? ::
      DayRecord(year, month, d, disk, fmt, tagsLabel).value.value
  }

  /** Every day `1..last` has a record or no entry, none an error. */
  ghost predicate Readable(year: int, month: int, disk: Disk, fmt: Formats, tagsLabel: string, last: int) {
    forall d :: 1 <= d <= last ==> DayRecord(year, month, d, disk, fmt, tagsLabel).Ok?
  }

  /** Day `d` of `1..last` is the first whose record fails, and it fails with `e`. */
  ghost predicate FirstFailure(year: int, month: int, disk: Disk, fmt: Formats, tagsLabel: string, last: int, e: Error) {
    exists d :: 1 <= d <= last && Readable(year, month, disk, fmt, tagsLabel, d - 1) && DayRecord(year, month, d, disk, fmt, tagsLabel) == Err(e)
  }

  /** A month's days fail with at most one first error. */
  lemma FirstFailureUnique(year: int, month: int, disk: Disk, fmt: Formats, tagsLabel: string, last: int, e1: Error, e2: Error)
    requires FirstFailure(year, month, disk, fmt, tagsLabel, last, e1)
    requires FirstFailure(year, month, disk, fmt, tagsLabel, last, e2)
    ensures e1 == e2
  {
    var d1 :| 1 <= d1 <= last && Readable(year, month, disk, fmt, tagsLabel, d1 - 1) && DayRecord(year, month, d1, disk, fmt, tagsLabel) == Err(e1);
    var d2 :| 1 <= d2 <= last && Readable(year, month, disk, fmt, tagsLabel, d2 - 1) && DayRecord(year, month, d2, disk, fmt, tagsLabel) == Err(e2);
    assert d1 == d2;
  }

  /** When some day of `1..last` cannot be read, one of them is the first, with its error. */
  lemma {:induction false} FirstFailureExists(year: int, month: int, disk: Disk, fmt: Formats, tagsLabel: string, last: int)
    requires !Readable(year, month, disk, fmt, tagsLabel, last)
    ensures exists e :: FirstFailure(year, month, disk, fmt, tagsLabel, last, e)
    decreases last
  {
    var prev := last - 1;
    if Readable(year, month, disk, fmt, tagsLabel, prev) {
      var r := DayRecord(year, month, last, disk, fmt, tagsLabel);
      assert FirstFailure(year, month, disk, fmt, tagsLabel, last, r.error);
    } else {
      FirstFailureExists(year, month, disk, fmt, tagsLabel, prev);
      var e :| FirstFailure(year, month, disk, fmt, tagsLabel, prev, e);
      var d :| 1 <= d <= prev && Readable(year, month, disk, fmt, tagsLabel, d - 1) && DayRecord(year, month, d, disk, fmt, tagsLabel) == Err(e);
      assert FirstFailure(year, month, disk, fmt, tagsLabel, last, e);
    }
  }

  /** The days before `upTo` that `_load` went through are readable. */
  lemma LoadedReadable(data: map<int, DayData>, year: int, month: int, disk: Disk, fmt: Formats, tagsLabel: string, upTo: int)
    requires Loaded(data, year, month, disk, fmt, tagsLabel, upTo)
    ensures Readable(year, month, disk, fmt, tagsLabel, upTo - 1)
  {
    var recs := d => DayRecord(year, month, d, disk, fmt, tagsLabel);
    assert LoadedBy(data, recs, upTo);
    forall d | 1 <= d <= upTo - 1 ensures DayRecord(year, month, d, disk, fmt, tagsLabel).Ok? {
      assert recs(d).Ok?;
    }
  }

  /** What `_load` leaves after the last day is exactly `Records`. */
  lemma LoadedRecords(data: map<int, DayData>, year: int, month: int, disk: Disk, fmt: Formats, tagsLabel: string, last: int)
    requires Loaded(data, year, month, disk, fmt, tagsLabel, last + 1)
    ensures Readable(year, month, disk, fmt, tagsLabel, last)
    ensures data == Records(year, month, disk, fmt, tagsLabel, last)
  {
    var recs := d => DayRecord(year, month, d, disk, fmt, tagsLabel);
    assert LoadedBy(data, recs, last + 1);
    forall d | 1 <= d <= last ensures DayRecord(year, month, d, disk, fmt, tagsLabel).Ok? {
      assert recs(d).Ok?;
    }
    var r := Records(year, month, disk, fmt, tagsLabel, last);
    forall d ensures d in data <==> d in r {
      assert d in data <==> 1 <= d < last + 1 && recs(d).value.Some?;
    }
    forall d | d in data ensures data[d] == r[d] {
      assert data[d] == recs(d).value.value;
    }
  }

  lemma LoadedStep(before: map<int, DayData>, after: map<int, DayData>, year: int, month: int, disk: Disk, fmt: Formats, tagsLabel: string, day: int)
    requires 1 <= day && Loaded(before, year, month, disk, fmt, tagsLabel, day)
    requires DayRecord(year, month, day, disk, fmt, tagsLabel).Ok?
    requires match DayRecord(year, month, day, disk, fmt, tagsLabel).value
      case None => after == before
      case Some(rec) => after == before[day := rec]
    ensures Loaded(after, year, month, disk, fmt, tagsLabel, day + 1)
  {
    LoadedByStep(before, after, d => DayRecord(year, month, d, disk, fmt, tagsLabel), day);
  }

  lemma LoadedByStep(before: map<int, DayData>, after: map<int, DayData>, recs: int -> Result<Option<DayData>>, day: int)
    requires 1 <= day && LoadedBy(before, recs, day)
    requires recs(day).Ok?
    requires recs(day).value.None? ==> after == before
    requires recs(day).value.Some? ==> after == before[day := recs(day).value.value]
    ensures LoadedBy(after, recs, day + 1)
  {
    forall d ensures d in after <==> 1 <= d < day + 1 && recs(d).value.Some? {
      if d != day {
        assert d in after <==> d in before;
      }
    }
  }

  /**
    Building the metadata of `year`-`month` raises `e`: the month has no
    metadata file in `files`, and either it is not a month `lastday` can
    answer for (`ValueError`), or one of its days has a record that fails
    with `e`.
  */
  ghost predicate MonthFails(year: int, month: int, tagsLabel: string, files: map<string, Snapshot>, disk: Disk, fmt: Formats, e: Error) {
    && PathOf(year, month) !in files
    && match LastDayOfMonth(year, month)
       case Err(_) => e == ValueError
       case Ok(last) => FirstFailure(year, month, disk, fmt, tagsLabel, last, e)
  }

  /** `Metadata.instances`: one object per `(year, month)`. */
  class Registry {
    var instances: map<(int, int), Metadata>
    const dir: MetadataDir
    const tagsLabel: string

    constructor(dir: MetadataDir, tagsLabel: string)
      ensures instances == map[] && this.dir == dir && this.tagsLabel == tagsLabel
    {
      instances, this.dir, this.tagsLabel := map[], dir, tagsLabel;
    }

    /** `Metadata.get`: the month's object, created and loaded on the first request only. */
    method Get(year: int, month: int, disk: Disk, fmt: Formats) returns (r: Result<Metadata>)
      modifies this
      ensures (year, month) in old(instances) ==> r == Ok(old(instances)[(year, month)]) && instances == old(instances)
      ensures (year, month) !in old(instances) && r.Ok? ==>
        fresh(r.value) && r.value.year == year && r.value.month == month && r.value.dir == dir &&
        instances == old(instances)[(year, month) := r.value]
      ensures (year, month) !in old(instances) && r.Ok? ==> r.value.tagsLabel == tagsLabel
      ensures (year, month) !in old(instances) && r.Ok? && PathOf(year, month) in dir.files ==>
        r.value.data == dir.files[PathOf(year, month)].data && r.value.tags == dir.files[PathOf(year, month)].tags && !r.value.dirty
      ensures (year, month) !in old(instances) && r.Ok? && PathOf(year, month) !in dir.files ==>
        LastDayOfMonth(year, month).Ok? && Loaded(r.value.data, year, month, disk, fmt, tagsLabel, LastDayOfMonth(year, month).value + 1) &&
        Inverted(r.value.data, r.value.tags) && (r.value.dirty <==> r.value.data != map[])
      ensures (year, month) !in old(instances) && r.Err? ==>
        instances == old(instances) && MonthFails(year, month, tagsLabel, dir.files, disk, fmt, r.error)
    {
      if (year, month) in instances {
        return Ok(instances[(year, month)]);
      }
      var m := new Metadata(year, month, tagsLabel, dir);
      var err := m.Load(disk, fmt);
      if err.Some? {
        return Err(err.value);
      }
      instances := instances[(year, month) := m];
      return Ok(m);
    }
  }
}

// tags.py: the listing of every tag with the number of days it was used,
// gathered from the metadata of every month found in the data directory.

module TagList {
  import opened Wrappers
  import opened Strings
  import opened Sorting
  import opened Dates
  import opened Utils
  import opened MonthMetadata

  // ---------------------------------------------------------------------
  // The months

  /** `names.remove(x)` with its `ValueError` ignored: the first `x`, if any, goes. */
  function RemoveFirst(names: seq<string>, x: string): (r: seq<string>)
    ensures multiset(r) == multiset(names) - multiset{x}
    ensures x !in names ==> r == names
  {
    if names == [] then []
    else
      assert names == [names[0]] + names[1..];
      if names[0] == x then names[1..] else [names[0]] + RemoveFirst(names[1..], x)
  }

  /** A directory listing names each file once, so after the removal `x` is gone. */
  lemma RemoveFirstGone(names: seq<string>, x: string)
    requires Distinct(names)
    ensures x !in RemoveFirst(names, x)
  {
    DistinctCount(names, x);
    var r := RemoveFirst(names, x);
    assert multiset(r)[x] == 0;
  }

  /** `fields[:2]` */
  function FirstTwo(fields: seq<string>): (r: seq<string>)
    ensures |r| == if |fields| < 2 then |fields| else 2
    ensures r == fields[..|r|]
  {
    if |fields| <= 2 then fields else fields[..2]
  }

  /** `tuple(map(int, entry.split('-')[:2]))`: one or two numbers, `ValueError` for a field that is none. */
  function MonthOf(entry: string): (r: Result<seq<int>>)
    ensures r.Ok? ==> 1 <= |r.value| <= 2
    ensures r.Err? ==> r.error == ValueError
  {
    ParseInts(FirstTwo(SplitOn(entry, '-')))
  }

  /** A month directory, named `<year>-<month>` by `strftime('%Y-%m')`, reads back as that month. */
  lemma MonthOfMonthName(d: Date)
    requires ValidDate(d) && d.year >= 1900
    ensures MonthOf(MonthName(d).value) == Ok([d.year, d.month])
  {
    MonthNameParses(d);
    var fields := SplitOn(MonthName(d).value, '-');
    assert FirstTwo(fields) == [fields[0], fields[1]];
    ParseIntsPair(fields[0], fields[1]);
  }

  /**
    The set the first loop of `main` builds: the image of every name
    under `f`; the error of the first name `f` refuses.
  */
  function Images<T>(f: string -> Result<T>, entries: seq<string>): Result<set<T>> {
    if entries == [] then Ok({})
    else
      match Images(f, entries[..|entries| - 1])
      case Err(e) => Err(e)
      case Ok(ms) =>
        match f(entries[|entries| - 1])
        case Err(e) => Err(e)
        case Ok(t) => Ok(ms + {t})
  }

  /** The images are those of the names, and there are images exactly when every name has one. */
  lemma {:induction false} ImagesMembers<T>(f: string -> Result<T>, entries: seq<string>)
    ensures Images(f, entries).Ok? <==> forall i | 0 <= i < |entries| :: f(entries[i]).Ok?
    ensures Images(f, entries).Ok? ==>
      forall t :: t in Images(f, entries).value <==> exists i | 0 <= i < |entries| :: f(entries[i]) == Ok(t)
    ensures Images(f, entries).Err? ==> exists i | 0 <= i < |entries| :: f(entries[i]).Err? && f(entries[i]).error == Images(f, entries).error
    decreases |entries|
  {
    if entries != [] {
      var n := |entries| - 1;
      var init := entries[..n];
      ImagesMembers(f, init);
      assert forall i | 0 <= i < n :: init[i] == entries[i];
      if Images(f, entries).Ok? {
        forall t ensures t in Images(f, entries).value <==> exists i | 0 <= i < |entries| :: f(entries[i]) == Ok(t) {
          if t in Images(f, init).value {
            var i :| 0 <= i < n && f(init[i]) == Ok(t);
            assert f(entries[i]) == Ok(t);
          }
          if i :| 0 <= i < |entries| && f(entries[i]) == Ok(t) {
            if i < n {
              assert f(init[i]) == Ok(t);
            }
          }
        }
      }
    }
  }

  /** The months of the names: `ValueError` when some name does not start with numbers. */
  function MonthsOf(entries: seq<string>): (r: Result<set<seq<int>>>)
    ensures r.Ok? <==> forall i | 0 <= i < |entries| :: MonthOf(entries[i]).Ok?
    ensures r.Ok? ==> forall t :: t in r.value <==> exists i | 0 <= i < |entries| :: MonthOf(entries[i]) == Ok(t)
    ensures r.Err? ==> r.error == ValueError
  {
    ImagesMembers(MonthOf, entries);
    Images(MonthOf, entries)
  }

  /** The first loop of `main`: collects the months of the listed names. */
  method CollectMonths(entries: seq<string>) returns (r: Result<set<seq<int>>>)
    ensures r == MonthsOf(entries)
  {
    var months: set<seq<int>> := {};
    for i := 0 to |entries|
      invariant Images(MonthOf, entries[..i]) == Ok(months)
    {
      assert entries[..i + 1][..i] == entries[..i];
      var t := MonthOf(entries[i]);
      if t.Err? {
        assert !MonthsOf(entries).Ok?;
        return Err(t.error);
      }
      months := months + {t.value};
    }
    assert entries[..|entries|] == entries;
    return Ok(months);
  }

  /**
    With the layout of `conf.py`, the data directory holds `entries`,
    `diffs` and `metadata`: once `metadata` is removed, `entries` is not a
    number and the listing fails.
  */
  lemma DataDirListingFails()
    ensures MonthsOf(RemoveFirst(["entries", "diffs", "metadata"], "metadata")) == Err(ValueError)
  {
    RemoveMetadata();
    EntriesNotMonth();
    MonthsOfFails(["entries", "diffs"], "entries", 0);
  }

  /** One name that is not a month fails the whole listing. */
  lemma MonthsOfFails(names: seq<string>, name: string, i: nat)
    requires i < |names| && names[i] == name && MonthOf(name).Err?
    ensures MonthsOf(names) == Err(ValueError)
  {
  }

  lemma RemoveMetadata()
    ensures RemoveFirst(["entries", "diffs", "metadata"], "metadata") == ["entries", "diffs"]
  {
    var e, d, m := "entries", "diffs", "metadata";
    calc {
      RemoveFirst([e, d, m], m);
      { assert |e| != |m| && [e, d, m] == [e] + [d, m]; RemoveFirstSkip(e, [d, m], m); }
      [e] + RemoveFirst([d, m], m);
      { assert |d| != |m| && [d, m] == [d] + [m]; RemoveFirstSkip(d, [m], m); }
      [e] + ([d] + RemoveFirst([m], m));
      { assert [m] == [m] + []; RemoveFirstHit([], m); }
      [e] + ([d] + []);
      [e, d];
    }
  }

  lemma RemoveFirstSkip(a: string, rest: seq<string>, x: string)
    requires a != x
    ensures RemoveFirst([a] + rest, x) == [a] + RemoveFirst(rest, x)
  {
    assert ([a] + rest)[1..] == rest;
  }

  lemma RemoveFirstHit(rest: seq<string>, x: string)
    ensures RemoveFirst([x] + rest, x) == rest
  {
    assert ([x] + rest)[1..] == rest;
  }

  lemma EntriesNotMonth()
    ensures MonthOf("entries").Err?
  {
    SplitNoSep("entries", '-');
    assert FirstTwo(["entries"]) == ["entries"];
    assert LStrip("entries") == "entries" && RStrip("entries") == "entries";
    assert !IsDigit("entries"[0]);
    assert PyInt("entries").Err?;
  }

  /** Listing the entries directory instead, whose names are months, gives exactly those months. */
  lemma EntriesDirListingMonths(names: seq<string>, dates: seq<Date>)
    requires |names| == |dates|
    requires forall i | 0 <= i < |dates| :: ValidDate(dates[i]) && dates[i].year >= 1900 && MonthName(dates[i]) == Ok(names[i])
    ensures MonthsOf(names).Ok?
    ensures forall t :: t in MonthsOf(names).value <==> exists i | 0 <= i < |dates| :: t == [dates[i].year, dates[i].month]
  {
    forall i | 0 <= i < |names| ensures MonthOf(names[i]) == Ok([dates[i].year, dates[i].month]) {
      MonthOfMonthName(dates[i]);
    }
  }

  /** `list(s)`: the elements of a set, each once, in no particular order. */
  method ListOf<T>(s: set<T>) returns (r: seq<T>)
    ensures Distinct(r) && forall x :: x in r <==> x in s
  {
    r := [];
    var todo := s;
    while todo != {}
      invariant todo <= s && Distinct(r)
      invariant forall x :: x in r <==> x in s - todo
      decreases todo
    {
      var x := Pick(todo);
      assert x !in r;
      r := r + [x];
      todo := todo - {x};
    }
  }

  /** For pairs Python's tuple order is by year, then by month. */
  lemma LexLePairs(a: int, b: int, c: int, d: int)
    ensures LexLe([a, b], [c, d]) <==> a < c || (a == c && b <= d)
  {
    assert [a, b][1..] == [b] && [c, d][1..] == [d];
    assert [b][1..] == [] && [d][1..] == [];
  }

  /**
    `sorted(sorted(months, key=lambda i: i[1]), key=lambda i: i[0])`: the
    key raises `IndexError` on a one-number tuple; otherwise, both sorts
    being stable, the pairs ascend by year and then by month.
  */
  function SortMonths(ms: seq<seq<int>>): (r: Result<seq<seq<int>>>)
    ensures r.Err? <==> exists t <- ms :: |t| < 2
    ensures r.Err? ==> r.error == IndexError
    ensures r.Ok? ==> SortedBy(r.value, LexLe) && multiset(r.value) == multiset(ms)
  {
    if exists t <- ms :: |t| < 2 then Err(IndexError)
    else
      LexLeTotalOrder();
      Ok(Sort(ms, LexLe))
  }

  /** Sorting keeps a sequence free of repeats. */
  lemma DistinctPermutation<T>(a: seq<T>, b: seq<T>)
    requires Distinct(a) && multiset(a) == multiset(b)
    ensures Distinct(b)
  {
    forall i, j | 0 <= i < j < |b| ensures b[i] != b[j] {
      if b[i] == b[j] {
        var x := b[i];
        assert b == b[..j] + [b[j]] + b[j + 1..];
        assert x in b[..j];
        assert multiset(b)[x] >= 2 by {
          assert multiset(b) == multiset(b[..j]) + multiset{x} + multiset(b[j + 1..]);
        }
        DistinctCount(a, x);
        assert false;
      }
    }
  }

  /**
    The months come out in strictly ascending order, and the order in which
    the set handed them over does not matter.
  */
  lemma SortMonthsAnyOrder(a: seq<seq<int>>, b: seq<seq<int>>)
    requires Distinct(a) && Distinct(b) && forall t :: t in a <==> t in b
    ensures SortMonths(a) == SortMonths(b)
    ensures SortMonths(a).Ok? ==> forall i, j | 0 <= i < j < |SortMonths(a).value| ::
      LexLe(SortMonths(a).value[i], SortMonths(a).value[j]) && SortMonths(a).value[i] != SortMonths(a).value[j]
  {
    DistinctSameElements(a, b);
    LexLeTotalOrder();
    if SortMonths(a).Ok? {
      assert SortMonths(b).Ok?;
      SortPermutationInvariant(a, b, LexLe);
      DistinctPermutation(a, SortMonths(a).value);
    }
  }

  // ---------------------------------------------------------------------
  // The counts

  /** `counts.get(t, 0)` */
  function CountOf(counts: map<string, int>, t: string): int {
    if t in counts then counts[t] else 0
  }

  /** The number of days the months' indexes list for `t`, summed over the months. */
  function Total(indexes: seq<map<string, seq<int>>>, t: string): nat {
    if indexes == [] then 0
    else Total(indexes[..|indexes| - 1], t) + |Got(indexes[|indexes| - 1], t)|
  }

  /** The tags some month lists. */
  function Tagged(indexes: seq<map<string, seq<int>>>): set<string> {
    if indexes == [] then {} else Tagged(indexes[..|indexes| - 1]) + indexes[|indexes| - 1].Keys
  }

  /** The `tags` dictionary the second loop of `main` builds: every tag of some month, with its total. */
  function Totals(indexes: seq<map<string, seq<int>>>): map<string, int> {
    map t | t in Tagged(indexes) :: Total(indexes, t)
  }

  /** One month adds its days to each of its tags and starts the tags it is the first to list. */
  method AddMonth(counts: map<string, int>, tags: map<string, seq<int>>) returns (r: map<string, int>)
    ensures r == map t | t in counts.Keys + tags.Keys :: CountOf(counts, t) + |Got(tags, t)|
  {
    r := counts;
    var todo := tags.Keys;
    while todo != {}
      invariant todo <= tags.Keys
      invariant r == Added(counts, tags, tags.Keys - todo)
      decreases todo
    {
      var t := Pick(todo);
      AddedStep(counts, tags, tags.Keys - todo, t);
      if t in r {
        r := r[t := r[t] + |tags[t]|];
      } else {
        r := r[t := |tags[t]|];
      }
      assert tags.Keys - (todo - {t}) == (tags.Keys - todo) + {t};
      todo := todo - {t};
    }
    AddedAll(counts, tags);
  }

  /** The counts once the tags in `done` have been added. */
  function Added(counts: map<string, int>, tags: map<string, seq<int>>, done: set<string>): map<string, int>
    requires done <= tags.Keys
  {
    map t | t in counts.Keys + done :: CountOf(counts, t) + (if t in done then |tags[t]| else 0)
  }

  lemma AddedStep(counts: map<string, int>, tags: map<string, seq<int>>, done: set<string>, t: string)
    requires done <= tags.Keys && t in tags && t !in done
    ensures var r := Added(counts, tags, done); Added(counts, tags, done + {t}) == r[t := CountOf(r, t) + |tags[t]|]
  {
    var r := Added(counts, tags, done);
    var r' := Added(counts, tags, done + {t});
    assert r'.Keys == r.Keys + {t};
    assert CountOf(r, t) == CountOf(counts, t);
  }

  lemma AddedAll(counts: map<string, int>, tags: map<string, seq<int>>)
    ensures Added(counts, tags, tags.Keys) == map t | t in counts.Keys + tags.Keys :: CountOf(counts, t) + |Got(tags, t)|
  {
  }

  /** The second loop of `main`: sums the days of every tag over the months. */
  method CountTags(indexes: seq<map<string, seq<int>>>) returns (counts: map<string, int>)
    ensures counts == Totals(indexes)
  {
    counts := map[];
    for k := 0 to |indexes|
      invariant counts == Totals(indexes[..k])
    {
      var init := indexes[..k + 1];
      assert init[..k] == indexes[..k] && init[k] == indexes[k];
      counts := AddMonth(counts, indexes[k]);
      TotalsStep(init);
    }
    assert indexes[..|indexes|] == indexes;
  }

  /** A tag no month lists has no days. */
  lemma {:induction false} TotalUntagged(indexes: seq<map<string, seq<int>>>, t: string)
    requires t !in Tagged(indexes)
    ensures Total(indexes, t) == 0
    decreases |indexes|
  {
    if indexes != [] {
      TotalUntagged(indexes[..|indexes| - 1], t);
    }
  }

  /** The totals after one more month: its days added to those before. */
  lemma TotalsStep(indexes: seq<map<string, seq<int>>>)
    requires |indexes| > 0
    ensures var n := |indexes| - 1; var before := Totals(indexes[..n]);
      Totals(indexes) == map t | t in before.Keys + indexes[n].Keys :: CountOf(before, t) + |Got(indexes[n], t)|
  {
    var n := |indexes| - 1;
    var before := Totals(indexes[..n]);
    forall t | t in indexes[n].Keys && t !in before.Keys ensures Total(indexes[..n], t) == 0 {
      TotalUntagged(indexes[..n], t);
    }
  }

  /** A tag is counted exactly when some month lists it; counted, its total is positive if no month lists it without days. */
  lemma {:induction false} TotalsKeys(indexes: seq<map<string, seq<int>>>, t: string)
    requires forall k | 0 <= k < |indexes| :: forall u <- indexes[k] :: indexes[k][u] != []
    ensures t in Totals(indexes) <==> exists k | 0 <= k < |indexes| :: t in indexes[k]
    ensures t in Totals(indexes) <==> Total(indexes, t) > 0
    decreases |indexes|
  {
    if indexes != [] {
      var n := |indexes| - 1;
      var init := indexes[..n];
      assert forall k | 0 <= k < n :: init[k] == indexes[k];
      TotalsKeys(init, t);
      if k :| 0 <= k < |indexes| && t in indexes[k] {
        if k < n {
          assert t in init[k];
        }
      }
    }
  }

  /**
    When a month's index was built from its records, a tag counts the days
    whose record carries it, provided no record repeats the tag.
  */
  lemma DaysTagged(data: map<int, DayData>, tags: map<string, seq<int>>, t: string)
    requires Inverted(data, tags)
    requires forall d <- data :: multiset(data[d].tags)[t] <= 1
    ensures |Got(tags, t)| == |set d | d in data && t in data[d].tags|
  {
    var days := set d | d in data && t in data[d].tags;
    forall d ensures multiset(Got(tags, t))[d] == multiset(days)[d] {
      if d in data {
        assert t in data[d].tags <==> multiset(data[d].tags)[t] > 0;
      }
    }
    assert multiset(Got(tags, t)) == multiset(days);
  }

  // ---------------------------------------------------------------------
  // The listing

  /** Byte strings compared as Python compares them: character by character, a prefix first. */
  predicate StrLe(a: string, b: string) {
    if |a| == 0 then true
    else if |b| == 0 then false
    else a[0] < b[0] || (a[0] == b[0] && StrLe(a[1..], b[1..]))
  }

  lemma {:induction false} StrLeTotal(a: string, b: string)
    ensures StrLe(a, b) || StrLe(b, a)
  {
    if |a| > 0 && |b| > 0 && a[0] == b[0] {
      StrLeTotal(a[1..], b[1..]);
    }
  }

  lemma {:induction false} StrLeAntisymmetric(a: string, b: string)
    requires StrLe(a, b) && StrLe(b, a)
    ensures a == b
  {
    if |a| > 0 {
      StrLeAntisymmetric(a[1..], b[1..]);
      assert a == [a[0]] + a[1..] && b == [b[0]] + b[1..];
    }
  }

  lemma {:induction false} StrLeTransitive(a: string, b: string, c: string)
    requires StrLe(a, b) && StrLe(b, c)
    ensures StrLe(a, c)
  {
    if |a| > 0 && a[0] == b[0] && b[0] == c[0] {
      StrLeTransitive(a[1..], b[1..], c[1..]);
    }
  }

  /** The order of the listing: more days first, equal counts alphabetically. */
  predicate ItemLe(a: (string, int), b: (string, int)) {
    a.1 > b.1 || (a.1 == b.1 && StrLe(a.0, b.0))
  }

  lemma ItemLeTotalOrder()
    ensures TotalOrder(ItemLe)
  {
    forall a: (string, int), b: (string, int) ensures ItemLe(a, b) || ItemLe(b, a) {
      StrLeTotal(a.0, b.0);
    }
    forall a: (string, int), b: (string, int) | ItemLe(a, b) && ItemLe(b, a) ensures a == b {
      StrLeAntisymmetric(a.0, b.0);
    }
    forall a: (string, int), b: (string, int), c: (string, int) | ItemLe(a, b) && ItemLe(b, c) ensures ItemLe(a, c) {
      if a.1 == b.1 == c.1 {
        StrLeTransitive(a.0, b.0, c.0);
      }
    }
  }

  /**
    `sorted(sorted(items, key=name), key=count, reverse=True)`: a stable
    sort reversed keeps equal counts in name order, so the items go by
    count descending, then by name ascending.
  */
  function Ordered(items: seq<(string, int)>): (r: seq<(string, int)>)
    ensures multiset(r) == multiset(items)
    ensures forall i, j | 0 <= i < j < |r| :: r[i].1 > r[j].1 || (r[i].1 == r[j].1 && StrLe(r[i].0, r[j].0))
  {
    ItemLeTotalOrder();
    Sort(items, ItemLe)
  }

  /** `'%s (%d)' % item` */
  function Format(item: (string, int)): (r: string)
    ensures StartsWith(r, item.0) && EndsWith(r, ")")
  {
    var r := item.0 + " (" + IntToDec(item.1) + ")";
    assert r[..|item.0|] == item.0;
    r
  }

  /** A line of the listing gives back its tag and its count. */
  lemma FormatParses(item: (string, int))
    ensures var r := Format(item);
      r[..|item.0|] == item.0 && r[|item.0|..|item.0| + 2] == " (" &&
      PyInt(r[|item.0| + 2..|r| - 1]) == Ok(item.1)
  {
    var r := Format(item);
    var a, n := item.0, IntToDec(item.1);
    assert r == a + " (" + n + ")";
    assert r[..|a|] == a;
    assert r[|a|..|a| + 2] == " (";
    assert r[|a| + 2..|r| - 1] == n;
    IntToDecParses(item.1);
  }

  /** The lines the list shows, `tl`. */
  function Listing(items: seq<(string, int)>): (r: seq<string>)
    ensures |r| == |items|
  {
    MapSeq(Format, Ordered(items))
  }

  /** `items` lists every entry of `counts` once, in some order. */
  predicate ListsItems(items: seq<(string, int)>, counts: map<string, int>) {
    Distinct(items) &&
    (forall i | 0 <= i < |items| :: items[i].0 in counts && counts[items[i].0] == items[i].1) &&
    (forall t <- counts :: (t, counts[t]) in items)
  }

  /**
    The items of a dictionary come in no fixed order, but the listing is
    the same whatever the order.
  */
  lemma ListingAnyOrder(a: seq<(string, int)>, b: seq<(string, int)>, counts: map<string, int>)
    requires ListsItems(a, counts) && ListsItems(b, counts)
    ensures Listing(a) == Listing(b)
  {
    forall x ensures x in a <==> x in b {
      if x in a {
        var i :| 0 <= i < |a| && a[i] == x;
      }
      if x in b {
        var i :| 0 <= i < |b| && b[i] == x;
      }
    }
    DistinctSameElements(a, b);
    ItemLeTotalOrder();
    SortPermutationInvariant(a, b, ItemLe);
  }

  // ---------------------------------------------------------------------
  // main

  /** `tags` is the index the file at `path` holds, or empty when there is no such file. */
  predicate IndexOf(files: map<string, Snapshot>, path: string, tags: map<string, seq<int>>) {
    if path in files then files[path].tags == tags else tags == map[]
  }

  /** The months of the listing can be sorted: every name is a month of two numbers. */
  predicate Sortable(names: seq<string>) {
    MonthsOf(names).Ok? && forall t <- MonthsOf(names).value :: |t| >= 2
  }

  /**
    The records behind the month's index when the metadata files are
    `files` and the month's file is `path`: those of the saved file, or else
    those `_load` reads from the entries.
  */
  ghost function MonthRecords(files: map<string, Snapshot>, path: string, year: int, month: int, tagsLabel: string, disk: Disk, fmt: Formats): map<int, DayData> {
    if path in files then files[path].data
    else match LastDayOfMonth(year, month)
      case Ok(last) => Records(year, month, disk, fmt, tagsLabel, last)
      case Err(_) => map[]
  }

  /**
    `Metadata(year, month)` then `write()`, the month's file being `path`,
    turns the metadata files `before` into `after` and leaves the index
    `tags`: a saved month gives its saved
    index and writes nothing; otherwise every day of the month is read, the
    index is built from the records, and the month is saved when it has a
    record.
  */
  ghost predicate MonthIndexed(before: map<string, Snapshot>, after: map<string, Snapshot>, path: string, year: int, month: int,
                               tagsLabel: string, disk: Disk, fmt: Formats, tags: map<string, seq<int>>) {
    if path in before then tags == before[path].tags && after == before
    else
      && LastDayOfMonth(year, month).Ok?
      && Readable(year, month, disk, fmt, tagsLabel, LastDayOfMonth(year, month).value)
      && var data := Records(year, month, disk, fmt, tagsLabel, LastDayOfMonth(year, month).value);
         && Inverted(data, tags)
         && after == if data == map[] then before else before[path := Snapshot(data, tags)]
  }

  /** The index a month leaves is the one its metadata file holds afterwards, and it is built from the month's records. */
  lemma MonthIndexedFacts(before: map<string, Snapshot>, after: map<string, Snapshot>, path: string, year: int, month: int,
                          tagsLabel: string, disk: Disk, fmt: Formats, tags: map<string, seq<int>>)
    requires MonthIndexed(before, after, path, year, month, tagsLabel, disk, fmt, tags)
    ensures IndexOf(after, path, tags)
    ensures Saved(before) ==> Saved(after) && Inverted(MonthRecords(before, path, year, month, tagsLabel, disk, fmt), tags)
  {
    if path !in before {
      var data := Records(year, month, disk, fmt, tagsLabel, LastDayOfMonth(year, month).value);
      if data == map[] {
        InvertedEmpty(data, tags);
      }
    }
  }

  /**
    `Metadata(year, month)` followed by `write()`: the month's tag index, as
    `MonthIndexed` says; or the error that stopped the metadata from being
    built, with nothing written.
  */
  method MonthIndex(year: int, month: int, tagsLabel: string, dir: MetadataDir, disk: Disk, fmt: Formats)
    returns (tags: map<string, seq<int>>, err: Option<Error>)
    modifies dir
    ensures err.None? ==> MonthIndexed(old(dir.files), dir.files, PathOf(year, month), year, month, tagsLabel, disk, fmt, tags)
    ensures err.None? ==> IndexOf(dir.files, PathOf(year, month), tags)
    ensures PathOf(year, month) in old(dir.files) ==> err.None?
    ensures err.Some? ==> dir.files == old(dir.files) && MonthFails(year, month, tagsLabel, dir.files, disk, fmt, err.value)
  {
    var m := new Metadata(year, month, tagsLabel, dir);
    err := m.Load(disk, fmt);
    if err.Some? {
      return map[], err;
    }
    ghost var stored := m.Path() in dir.files;
    if !stored {
      LoadedRecords(m.data, year, month, disk, fmt, tagsLabel, LastDayOfMonth(year, month).value);
    }
    m.Write();
    tags := m.tags;
    MonthIndexedFacts(old(dir.files), dir.files, PathOf(year, month), year, month, tagsLabel, disk, fmt, tags);
  }

  /** The metadata file of each month. */
  function MonthPaths(months: seq<seq<int>>): (r: seq<string>)
    requires forall k | 0 <= k < |months| :: |months[k]| == 2
    ensures |r| == |months| && forall k | 0 <= k < |months| :: r[k] == PathOf(months[k][0], months[k][1])
  {
    seq(|months|, k requires 0 <= k < |months| => PathOf(months[k][0], months[k][1]))
  }

  /** The state before step `k` of a run from `start`: `start` itself, or the state step `k - 1` left. */
  function Before<S>(start: S, states: seq<S>, k: nat): S
    requires k <= |states|
  {
    if k == 0 then start else states[k - 1]
  }

  /** A run from `start`: step `k` turns the state before it into `states[k]`, with the result `outs[k]`. */
  ghost predicate Chain<S, X>(start: S, states: seq<S>, outs: seq<X>, step: (S, S, nat, X) -> bool) {
    |states| == |outs| && forall k | 0 <= k < |outs| :: step(Before(start, states, k), states[k], k, outs[k])
  }

  /** One more step extends the run. */
  lemma ChainSnoc<S, X>(start: S, states: seq<S>, outs: seq<X>, step: (S, S, nat, X) -> bool, state: S, out: X)
    requires Chain(start, states, outs, step) && step(Before(start, states, |states|), state, |states|, out)
    ensures Chain(start, states + [state], outs + [out], step)
  {
    var ss, os := states + [state], outs + [out];
    forall k | 0 <= k < |os| ensures step(Before(start, ss, k), ss[k], k, os[k]) {
      assert Before(start, ss, k) == Before(start, states, k);
    }
  }

  /** The first `n` steps of a run are a run. */
  lemma ChainPrefix<S, X>(start: S, states: seq<S>, outs: seq<X>, step: (S, S, nat, X) -> bool, n: nat)
    requires Chain(start, states, outs, step) && n <= |outs|
    ensures Chain(start, states[..n], outs[..n], step)
  {
    forall k | 0 <= k < n ensures step(Before(start, states[..n], k), states[..n][k], k, outs[..n][k]) {
      assert Before(start, states[..n], k) == Before(start, states, k);
    }
  }

  /** Step `k` of the loop over `months`, whose metadata files are `paths`, as `MonthIndexed` says. */
  ghost function MonthStep(months: seq<seq<int>>, paths: seq<string>, tagsLabel: string, disk: Disk, fmt: Formats):
    (map<string, Snapshot>, map<string, Snapshot>, nat, map<string, seq<int>>) -> bool
  {
    (before: map<string, Snapshot>, after: map<string, Snapshot>, k: nat, tags: map<string, seq<int>>) =>
      k < |months| && k < |paths| && |months[k]| == 2 &&
      MonthIndexed(before, after, paths[k], months[k][0], months[k][1], tagsLabel, disk, fmt, tags)
  }

  /**
    Month after month from the metadata files `start`: `indexes[k]` is the
    index of `months[k]` and `written[k]` the files it leaves, as
    `MonthIndexed` says, starting from the files the month before left.
  */
  ghost predicate IndexChain(start: map<string, Snapshot>, months: seq<seq<int>>, paths: seq<string>, written: seq<map<string, Snapshot>>,
                             indexes: seq<map<string, seq<int>>>, tagsLabel: string, disk: Disk, fmt: Formats) {
    && |indexes| <= |months| == |paths|
    && (forall k | 0 <= k < |months| :: |months[k]| == 2)
    && Chain(start, written, indexes, MonthStep(months, paths, tagsLabel, disk, fmt))
  }

  /** The records behind each index of the chain. */
  ghost function ChainRecords(start: map<string, Snapshot>, months: seq<seq<int>>, paths: seq<string>, written: seq<map<string, Snapshot>>,
                              tagsLabel: string, disk: Disk, fmt: Formats): (r: seq<map<int, DayData>>)
    requires |written| <= |months| == |paths| && forall k | 0 <= k < |months| :: |months[k]| == 2
    ensures |r| == |written|
  {
    seq(|written|, k requires 0 <= k < |written| => MonthRecords(Before(start, written, k), paths[k], months[k][0], months[k][1], tagsLabel, disk, fmt))
  }

  /** The days carrying `t` in the records of every month, each day once per occurrence of the tag. */
  ghost function TagDaysOver(records: seq<map<int, DayData>>, t: string): nat {
    if records == [] then 0
    else TagDaysOver(records[..|records| - 1], t) + |TagDays(records[|records| - 1], t)|
  }

  /** The records of a shorter run are a prefix of those of a longer one. */
  lemma ChainRecordsPrefix(start: map<string, Snapshot>, months: seq<seq<int>>, paths: seq<string>, written: seq<map<string, Snapshot>>,
                           tagsLabel: string, disk: Disk, fmt: Formats, n: nat)
    requires |written| <= |months| == |paths| && (forall k | 0 <= k < |months| :: |months[k]| == 2) && n <= |written|
    ensures ChainRecords(start, months, paths, written[..n], tagsLabel, disk, fmt) == ChainRecords(start, months, paths, written, tagsLabel, disk, fmt)[..n]
  {
    forall k | 0 <= k < n ensures Before(start, written[..n], k) == Before(start, written, k) {
    }
  }

  /**
    The count `main` gives every tag, the sum over the months of the days
    the month's index lists for it, is the number of days whose record
    carries the tag, summed over the months, provided the metadata files
    found at the start hold the indexes of their own records.
  */
  lemma {:induction false} ChainTotals(start: map<string, Snapshot>, months: seq<seq<int>>, paths: seq<string>, written: seq<map<string, Snapshot>>,
                                       indexes: seq<map<string, seq<int>>>, tagsLabel: string, disk: Disk, fmt: Formats, t: string)
    requires IndexChain(start, months, paths, written, indexes, tagsLabel, disk, fmt) && Saved(start)
    ensures Total(indexes, t) == TagDaysOver(ChainRecords(start, months, paths, written, tagsLabel, disk, fmt), t)
    decreases |indexes|
  {
    if indexes != [] {
      var n := |indexes| - 1;
      var records := ChainRecords(start, months, paths, written, tagsLabel, disk, fmt);
      ChainPrefix(start, written, indexes, MonthStep(months, paths, tagsLabel, disk, fmt), n);
      ChainRecordsPrefix(start, months, paths, written, tagsLabel, disk, fmt, n);
      ChainTotals(start, months, paths, written[..n], indexes[..n], tagsLabel, disk, fmt, t);
      ChainSaved(start, months, paths, written[..n], indexes[..n], tagsLabel, disk, fmt);
      assert Before(start, written, n) == Before(start, written[..n], n);
      ChainLast(start, months, paths, written, indexes, tagsLabel, disk, fmt, t);
      assert Total(indexes, t) == Total(indexes[..n], t) + |Got(indexes[n], t)|;
      assert TagDaysOver(records, t) == TagDaysOver(records[..n], t) + |TagDays(records[n], t)|;
    }
  }

  /** Along a run from saved metadata files every file stays saved, and no index lists a tag without days. */
  lemma {:induction false} ChainSaved(start: map<string, Snapshot>, months: seq<seq<int>>, paths: seq<string>, written: seq<map<string, Snapshot>>,
                                      indexes: seq<map<string, seq<int>>>, tagsLabel: string, disk: Disk, fmt: Formats)
    requires IndexChain(start, months, paths, written, indexes, tagsLabel, disk, fmt) && Saved(start)
    ensures Saved(Before(start, written, |written|))
    ensures forall k | 0 <= k < |indexes| :: NonEmptyLists(indexes[k])
    decreases |indexes|
  {
    if indexes != [] {
      var n := |indexes| - 1;
      ChainPrefix(start, written, indexes, MonthStep(months, paths, tagsLabel, disk, fmt), n);
      ChainSaved(start, months, paths, written[..n], indexes[..n], tagsLabel, disk, fmt);
      assert Before(start, written, n) == Before(start, written[..n], n);
      ChainLast(start, months, paths, written, indexes, tagsLabel, disk, fmt, "");
      AllNonEmpty(indexes);
    }
  }

  lemma AllNonEmpty(indexes: seq<map<string, seq<int>>>)
    requires indexes != []
    requires var n := |indexes| - 1; NonEmptyLists(indexes[n]) && forall k | 0 <= k < n :: NonEmptyLists(indexes[..n][k])
    ensures forall k | 0 <= k < |indexes| :: NonEmptyLists(indexes[k])
  {
    var n := |indexes| - 1;
    forall k | 0 <= k < n ensures NonEmptyLists(indexes[k]) {
      assert indexes[..n][k] == indexes[k];
    }
  }

  /** The last month of a run whose files before it are saved. */
  lemma ChainLast(start: map<string, Snapshot>, months: seq<seq<int>>, paths: seq<string>, written: seq<map<string, Snapshot>>,
                  indexes: seq<map<string, seq<int>>>, tagsLabel: string, disk: Disk, fmt: Formats, t: string)
    requires IndexChain(start, months, paths, written, indexes, tagsLabel, disk, fmt) && indexes != []
    requires Saved(Before(start, written, |indexes| - 1))
    ensures var n := |indexes| - 1;
      && Saved(Before(start, written, |written|))
      && |Got(indexes[n], t)| == |TagDays(ChainRecords(start, months, paths, written, tagsLabel, disk, fmt)[n], t)|
      && NonEmptyLists(indexes[n])
  {
    var n := |indexes| - 1;
    var before := Before(start, written, n);
    assert MonthStep(months, paths, tagsLabel, disk, fmt)(before, written[n], n, indexes[n]);
    MonthTagDays(before, written[n], paths[n], months[n][0], months[n][1], tagsLabel, disk, fmt, indexes[n], t);
  }

  /** One month of the run: its files stay saved, and its index counts the days of its records carrying `t`. */
  lemma MonthTagDays(before: map<string, Snapshot>, after: map<string, Snapshot>, path: string, year: int, month: int,
                     tagsLabel: string, disk: Disk, fmt: Formats, tags: map<string, seq<int>>, t: string)
    requires MonthIndexed(before, after, path, year, month, tagsLabel, disk, fmt, tags) && Saved(before)
    ensures Saved(after)
    ensures |Got(tags, t)| == |TagDays(MonthRecords(before, path, year, month, tagsLabel, disk, fmt), t)|
    ensures forall u <- tags :: tags[u] != []
  {
    MonthIndexedFacts(before, after, path, year, month, tagsLabel, disk, fmt, tags);
    InvertedTagDays(MonthRecords(before, path, year, month, tagsLabel, disk, fmt), tags, t);
  }

  /**
    The months of the listing, in order, each indexed from the metadata
    files the month before left (`written[k]` being the files after month
    `k`); the first month whose metadata cannot be built stops the loop with
    its error, with nothing written for it.
  */
  method MonthIndexes(months: seq<seq<int>>, tagsLabel: string, dir: MetadataDir, disk: Disk, fmt: Formats)
    returns (indexes: seq<map<string, seq<int>>>, err: Option<Error>, ghost written: seq<map<string, Snapshot>>)
    requires forall k | 0 <= k < |months| :: |months[k]| == 2
    modifies dir
    ensures IndexChain(old(dir.files), months, MonthPaths(months), written, indexes, tagsLabel, disk, fmt)
    ensures dir.files == Before(old(dir.files), written, |written|)
    ensures err.None? ==> |indexes| == |months|
    ensures err.Some? ==> |indexes| < |months|
    ensures err.Some? ==> MonthFails(months[|indexes|][0], months[|indexes|][1], tagsLabel, dir.files, disk, fmt, err.value)
  {
    ghost var paths := MonthPaths(months);
    indexes, written, err := [], [], None;
    for k := 0 to |months|
      invariant |indexes| == |written| == k
      invariant IndexChain(old(dir.files), months, paths, written, indexes, tagsLabel, disk, fmt)
      invariant dir.files == Before(old(dir.files), written, k)
      invariant err.None?
    {
      var tags;
      tags, err := MonthIndex(months[k][0], months[k][1], tagsLabel, dir, disk, fmt);
      if err.Some? {
        return;
      }
      assert paths[k] == PathOf(months[k][0], months[k][1]);
      ghost var step := MonthStep(months, paths, tagsLabel, disk, fmt);
      assert step(Before(old(dir.files), written, k), dir.files, k, tags);
      ChainSnoc(old(dir.files), written, indexes, step, dir.files, tags);
      indexes, written := indexes + [tags], written + [dir.files];
    }
  }

  /** With no records there is nothing to index. */
  lemma InvertedEmpty(data: map<int, DayData>, tags: map<string, seq<int>>)
    requires Inverted(data, tags) && data == map[]
    ensures tags == map[]
  {
    forall t | t in tags ensures false {
      InvertedKeys(data, tags, t);
    }
  }

  /**
    The months of the listing, ascending: `ValueError` for a name that is
    not a month, `IndexError` for a name with a single number.
  */
  method SortedMonths(names: seq<string>) returns (r: Result<seq<seq<int>>>)
    ensures MonthsOf(names).Err? ==> r == Err(ValueError)
    ensures MonthsOf(names).Ok? && (exists t <- MonthsOf(names).value :: |t| < 2) ==> r == Err(IndexError)
    ensures r.Ok? <==> Sortable(names)
    ensures r.Ok? ==> forall t :: t in r.value <==> t in MonthsOf(names).value
    ensures r.Ok? ==> SortedBy(r.value, LexLe) && Distinct(r.value) && forall k | 0 <= k < |r.value| :: |r.value[k]| == 2
  {
    var found := CollectMonths(names);
    if found.Err? {
      return Err(found.error);
    }
    var listed := ListOf(found.value);
    var sorted := SortMonths(listed);
    if sorted.Err? {
      ghost var t :| t in listed && |t| < 2;
      assert t in found.value;
      return Err(sorted.error);
    }
    forall t <- found.value ensures |t| >= 2 {
      assert t in listed;
    }
    var ms := sorted.value;
    DistinctPermutation(listed, ms);
    forall t ensures t in ms <==> t in listed {
      assert t in ms <==> t in multiset(ms);
      assert t in listed <==> t in multiset(listed);
    }
    forall k | 0 <= k < |ms| ensures |ms[k]| == 2 {
      assert ms[k] in listed;
    }
    return Ok(ms);
  }

  /** `counts.items()`, in whatever order the dictionary gives them, formatted as `tl`. */
  method Show(counts: map<string, int>) returns (lines: seq<string>, ghost items: seq<(string, int)>)
    ensures ListsItems(items, counts) && lines == Listing(items)
  {
    var keys := ListOf(counts.Keys);
    var its := seq(|keys|, i requires 0 <= i < |keys| => (keys[i], counts[keys[i]]));
    forall t <- counts ensures (t, counts[t]) in its {
      var i :| 0 <= i < |keys| && keys[i] == t;
      assert its[i] == (t, counts[t]);
    }
    items := its;
    lines := Listing(its);
  }

  /**
    `main` up to the list it shows: the listing of the data directory
    without `metadata` gives the months, each month its tag index, and the
    indexes the counted tags, ordered and formatted; the error of the
    months, or of the first month whose metadata cannot be built.
  */
  method ListTags(entries: seq<string>, tagsLabel: string, dir: MetadataDir, disk: Disk, fmt: Formats)
    returns (r: Result<seq<string>>, ghost months: seq<seq<int>>, ghost indexes: seq<map<string, seq<int>>>,
             ghost written: seq<map<string, Snapshot>>, ghost items: seq<(string, int)>)
    modifies dir
    ensures MonthsOf(RemoveFirst(entries, "metadata")).Err? ==> r == Err(ValueError)
    ensures MonthsOf(RemoveFirst(entries, "metadata")).Ok? && (exists t <- MonthsOf(RemoveFirst(entries, "metadata")).value :: |t| < 2) ==>
      r == Err(IndexError)
    ensures Sortable(RemoveFirst(entries, "metadata")) ==>
      (forall t :: t in months <==> t in MonthsOf(RemoveFirst(entries, "metadata")).value) &&
      SortedBy(months, LexLe) && Distinct(months) && forall k | 0 <= k < |months| :: |months[k]| == 2
    ensures !Sortable(RemoveFirst(entries, "metadata")) ==> dir.files == old(dir.files)
    ensures Sortable(RemoveFirst(entries, "metadata")) ==>
      IndexChain(old(dir.files), months, MonthPaths(months), written, indexes, tagsLabel, disk, fmt) && dir.files == Before(old(dir.files), written, |written|)
    ensures r.Ok? ==> Sortable(RemoveFirst(entries, "metadata")) && |indexes| == |months|
    ensures r.Err? && Sortable(RemoveFirst(entries, "metadata")) ==> |indexes| < |months|
    ensures r.Err? && Sortable(RemoveFirst(entries, "metadata")) ==>
      MonthFails(months[|indexes|][0], months[|indexes|][1], tagsLabel, dir.files, disk, fmt, r.error)
    ensures r.Ok? ==> ListsItems(items, Totals(indexes)) && r.value == Listing(items)
    ensures r.Ok? && Saved(old(dir.files)) ==>
      forall t :: (t in Totals(indexes) <==> TagDaysOver(ChainRecords(old(dir.files), months, MonthPaths(months), written, tagsLabel, disk, fmt), t) > 0) &&
        CountOf(Totals(indexes), t) == TagDaysOver(ChainRecords(old(dir.files), months, MonthPaths(months), written, tagsLabel, disk, fmt), t)
  {
    var sorted := SortedMonths(RemoveFirst(entries, "metadata"));
    if sorted.Err? {
      return Err(sorted.error), [], [], [], [];
    }
    months := sorted.value;
    var idx, err, w := MonthIndexes(sorted.value, tagsLabel, dir, disk, fmt);
    if err.Some? {
      return Err(err.value), months, idx, w, [];
    }
    indexes, written := idx, w;
    if Saved(old(dir.files)) {
      forall t ensures (t in Totals(indexes) <==> TagDaysOver(ChainRecords(old(dir.files), months, MonthPaths(months), written, tagsLabel, disk, fmt), t) > 0) &&
        CountOf(Totals(indexes), t) == TagDaysOver(ChainRecords(old(dir.files), months, MonthPaths(months), written, tagsLabel, disk, fmt), t)
      {
        ChainTotals(old(dir.files), months, MonthPaths(months), written, indexes, tagsLabel, disk, fmt, t);
        ChainSaved(old(dir.files), months, MonthPaths(months), written, indexes, tagsLabel, disk, fmt);
        TotalsKeys(indexes, t);
      }
    }
    var counts := CountTags(idx);
    var lines;
    lines, items := Show(counts);
    r := Ok(lines);
  }
}

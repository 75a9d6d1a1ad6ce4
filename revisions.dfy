/**
  The revision history of journal entries (`writelightly/edit.py`, and the
  older `edit.py` at the top of the repository): how diff files are named,
  listed (`get_edits`) and replayed backwards (`save_tmp_version`), and why
  replaying them gives back every earlier version of an entry.

  A month's diff directory is a map from file names to contents. The diff
  library is the value `c: Codec`; every theorem that needs it to behave
  takes `Sound(c)` as a precondition.
*/
module Revisions {
  import opened Wrappers
  import opened Strings
  import opened Sorting

  /**
    The diff library: `diff(one, two)` is the patch text `get_diff(one, two)`
    that turns `one` into `two`, `apply(p, t)` is the text that
    `patch_apply(patch_fromText(p), t)` produces.
  */
  datatype Codec = Codec(diff: (string, string) -> string, apply: (string, string) -> string)

  /** What the journal relies on from the diff library. */
  ghost predicate Sound(c: Codec) {
    // a patch from `one` to `two`, applied to `one`, gives `two`
    && (forall one, two :: c.apply(c.diff(one, two), one) == two)
    // the empty patch (an entry's creation marker) changes nothing
    && (forall text :: c.apply("", text) == text)
    // equal texts have an empty diff
    && (forall text :: c.diff(text, text) == "")
  }

  /** `Sound` can be met: the theorems below are not vacuous. */
  lemma SoundCodecExists()
    ensures exists c :: Sound(c)
  {
    var c := Codec((one: string, two: string) => if one == two then "" else "=" + two,
                   (p: string, t: string) => if p == "" then t else p[1..]);
    assert Sound(c);
  }

  // ---------------------------------------------------------------------
  // Diff file names

  /** The two-digit day of the month, `date.strftime('%d')`. */
  predicate IsDayName(day: string) {
    |day| == 2 && IsDigits(day)
  }

  /** `'%s_%d' % (day, ts)`: the diff file written at time `ts`. */
  function DiffName(day: string, ts: int): string {
    day + "_" + IntToDec(ts)
  }

  /** `'%s_%d.tmp' % (day, ts)`: the reconstructed version cached for the edit at `ts`. */
  function TmpName(day: string, ts: int): string {
    DiffName(day, ts) + ".tmp"
  }

  /** The file-name filter of `get_edits`. */
  predicate IsEditFile(day: string, name: string) {
    StartsWith(name, day) && !EndsWith(name, ".tmp")
  }

  /** `int(name.split('_')[1])` */
  function StampOf(name: string): Result<int> {
    var fields := SplitOn(name, '_');
    if |fields| < 2 then Err(IndexError) else PyInt(fields[1])
  }

  /** A diff file's name gives its time back, and passes the filter of its day. */
  lemma DiffNameParses(day: string, ts: int)
    requires IsDayName(day)
    ensures StampOf(DiffName(day, ts)) == Ok(ts)
    ensures IsEditFile(day, DiffName(day, ts))
  {
    var digits := IntToDec(ts);
    assert '_' !in day;
    assert DiffName(day, ts) == day + ['_'] + digits;
    SplitAtFirst(day, '_', digits);
    SplitNoSep(digits, '_');
    IntToDecParses(ts);
    assert SplitOn(DiffName(day, ts), '_')[1] == digits;
    DiffNameIsEdit(day, ts);
  }

  lemma DiffNameIsEdit(day: string, ts: int)
    requires IsDayName(day)
    ensures IsEditFile(day, DiffName(day, ts))
  {
    var digits := IntToDec(ts);
    var n := DiffName(day, ts);
    assert n[..|day|] == day;
    assert n[|n| - 1] == digits[|digits| - 1];
  }

  /** Diff files of one day written at different times have different names. */
  lemma DiffNameInjective(day: string, t1: int, t2: int)
    requires DiffName(day, t1) == DiffName(day, t2)
    ensures t1 == t2
  {
    var n := DiffName(day, t1);
    IntToDecParses(t1);
    IntToDecParses(t2);
    assert n[|day| + 1..] == IntToDec(t1);
    assert n[|day| + 1..] == IntToDec(t2);
  }

  // ---------------------------------------------------------------------
  // get_edits

  /** An edit as `get_edits` lists it: `(timestamp, size of its diff file)`. */
  datatype Edit = Edit(ts: int, size: nat)

  /** Python's ordering of `(ts, size)` tuples. */
  predicate EditLe(a: Edit, b: Edit) {
    a.ts < b.ts || (a.ts == b.ts && a.size <= b.size)
  }

  lemma EditLeTotalOrder()
    ensures TotalOrder(EditLe)
  {
  }

  /** `names` is what `os.listdir` returns for a directory holding `files`: each name once. */
  predicate IsListing(names: seq<string>, files: map<string, string>) {
    && Distinct(names)
    && (forall n <- names :: n in files)
    && (forall n <- files :: n in names)
  }

  /** The names that survive the filter of `get_edits`, in listing order. */
  function DayFiles(names: seq<string>, day: string): (r: seq<string>)
    ensures forall n :: n in r <==> n in names && IsEditFile(day, n)
    ensures Distinct(names) ==> Distinct(r)
  {
    if names == [] then []
    else
      var rest := DayFiles(names[1..], day);
      assert forall n :: n in names <==> n == names[0] || n in names[1..];
      if IsEditFile(day, names[0]) then
        assert Distinct(names) ==> names[0] !in names[1..] by {
          if Distinct(names) {
            forall k | 0 <= k < |names[1..]| ensures names[1..][k] != names[0] {
              assert names[1..][k] == names[k + 1];
            }
          }
        }
        assert Distinct(names) ==> Distinct(names[1..]) by {
          if Distinct(names) {
            forall i, j | 0 <= i < j < |names[1..]| ensures names[1..][i] != names[1..][j] {
              assert names[1..][i] == names[i + 1] && names[1..][j] == names[j + 1];
            }
          }
        }
        [names[0]] + rest
      else
        assert Distinct(names) ==> Distinct(names[1..]) by {
          if Distinct(names) {
            forall i, j | 0 <= i < j < |names[1..]| ensures names[1..][i] != names[1..][j] {
              assert names[1..][i] == names[i + 1] && names[1..][j] == names[j + 1];
            }
          }
        }
        rest
  }

  /** The timestamps of `names`, or the error of the first name that has none. */
  function ParseStamps(names: seq<string>): (r: Result<seq<int>>)
    ensures r.Ok? ==> |r.value| == |names|
    ensures r.Ok? ==> forall i :: 0 <= i < |names| ==> StampOf(names[i]) == Ok(r.value[i])
    ensures r.Err? ==> exists i :: 0 <= i < |names| && StampOf(names[i]) == Err(r.error)
  {
    ParseEach(names, StampOf)
  }

  /** `[f(n) for n in names]`, where the first `f(n)` that raises ends the list comprehension. */
  function ParseEach(names: seq<string>, f: string -> Result<int>): (r: Result<seq<int>>)
    ensures r.Ok? ==> |r.value| == |names|
    ensures r.Ok? ==> forall i :: 0 <= i < |names| ==> f(names[i]) == Ok(r.value[i])
    ensures r.Err? ==> exists i :: 0 <= i < |names| && f(names[i]) == Err(r.error)
  {
    if names == [] then Ok([])
    else
      match f(names[0])
      case Err(e) => Err(e)
      case Ok(ts) =>
        match ParseEach(names[1..], f)
        case Err(e) =>
          var i :| 0 <= i < |names[1..]| && f(names[1..][i]) == Err(e);
          assert f(names[i + 1]) == Err(e);
          Err(e)
        case Ok(rest) =>
          assert forall i :: 1 <= i < |names| ==> names[i] == names[1..][i - 1];
          Ok([ts] + rest)
  }

  /** `os.path.getsize` of the diff file of each timestamp; a missing file raises `OSError`. */
  function Sizes(files: map<string, string>, dirPath: string, day: string, stamps: seq<int>): (r: Result<seq<nat>>)
    ensures r.Ok? ==> |r.value| == |stamps|
    ensures r.Ok? ==> forall i :: 0 <= i < |stamps| ==>
      DiffName(day, stamps[i]) in files && r.value[i] == |files[DiffName(day, stamps[i])]|
    ensures r.Err? <==> exists i :: 0 <= i < |stamps| && DiffName(day, stamps[i]) !in files
    ensures r.Err? ==> r.error.OSError?
  {
    var names := DiffNames(day, stamps);
    var r := SizesOf(files, dirPath, names);
    assert r.Err? ==> exists i :: 0 <= i < |stamps| && DiffName(day, stamps[i]) !in files by {
      if r.Err? {
        var i :| 0 <= i < |names| && names[i] !in files;
        assert DiffName(day, stamps[i]) !in files;
      }
    }
    r
  }

  /** The names of the diff files of `stamps`. */
  function DiffNames(day: string, stamps: seq<int>): (r: seq<string>)
    ensures |r| == |stamps| && forall i :: 0 <= i < |stamps| ==> r[i] == DiffName(day, stamps[i])
  {
    seq(|stamps|, i requires 0 <= i < |stamps| => DiffName(day, stamps[i]))
  }

  /** The sizes of the files `names`, in order; `OSError` for the first one missing. */
  function SizesOf(files: map<string, string>, dirPath: string, names: seq<string>): (r: Result<seq<nat>>)
    ensures r.Ok? ==> |r.value| == |names|
    ensures r.Ok? ==> forall i :: 0 <= i < |names| ==> names[i] in files && r.value[i] == |files[names[i]]|
    ensures r.Err? <==> exists i :: 0 <= i < |names| && names[i] !in files
    ensures r.Err? ==> r.error.OSError?
  {
    if names == [] then Ok([])
    else if names[0] !in files then Err(OSError(PathJoin(dirPath, names[0])))
    else
      match SizesOf(files, dirPath, names[1..])
      case Err(e) =>
        var i :| 0 <= i < |names[1..]| && names[1..][i] !in files;
        assert names[i + 1] !in files;
        Err(e)
      case Ok(rest) =>
        var r := [|files[names[0]]|] + rest;
        assert forall i :: 0 < i < |names| ==> names[i] == names[1..][i - 1] && r[i] == rest[i - 1];
        Ok(r)
  }

  function Zip(stamps: seq<int>, sizes: seq<nat>): (r: seq<Edit>)
    requires |stamps| == |sizes|
    ensures |r| == |stamps|
    ensures forall i :: 0 <= i < |r| ==> r[i] == Edit(stamps[i], sizes[i])
  {
    if stamps == [] then [] else [Edit(stamps[0], sizes[0])] + Zip(stamps[1..], sizes[1..])
  }

  /** `zip(timestamps, sizes)` for the kept names, before sorting. */
  function Unsorted(files: map<string, string>, dirPath: string, day: string, kept: seq<string>): Result<seq<Edit>> {
    match ParseStamps(kept)
    case Err(e) => Err(e)
    case Ok(stamps) =>
      match Sizes(files, dirPath, day, stamps)
      case Err(e) => Err(e)
      case Ok(sizes) => Ok(Zip(stamps, sizes))
  }

  /**
    `get_edits`: the edits of `day` recorded in a month's diff directory,
    sorted by time. `dir` is `None` when the directory cannot be listed.
  */
  function GetEdits(dir: Option<map<string, string>>, names: seq<string>, dirPath: string, day: string): (r: Result<seq<Edit>>)
    requires dir.Some? ==> IsListing(names, dir.value)
    ensures r == Err(InvalidDataDir(dirPath)) <==> dir.None?
    ensures r.Ok? ==> SortedBy(r.value, EditLe)
    ensures r.Ok? ==> dir.Some? && AllEdits(dir.value, DayFiles(names, day), day)
    ensures r.Ok? ==> |r.value| == |DayFiles(names, day)|
    ensures r.Ok? ==> forall e <- r.value :: exists n <- DayFiles(names, day) :: e == EditOf(dir.value, n, day)
    ensures r.Ok? ==> forall n <- DayFiles(names, day) :: EditOf(dir.value, n, day) in r.value
  {
    if dir.None? then Err(InvalidDataDir(dirPath))
    else
      var kept := DayFiles(names, day);
      match Unsorted(dir.value, dirPath, day, kept)
      case Err(e) => Err(e)
      case Ok(zipped) =>
        UnsortedEdits(dir.value, dirPath, day, kept);
        EditLeTotalOrder();
        SortedKept(dir.value, day, kept, zipped);
        Ok(Sort(zipped, EditLe))
  }

  /** Every kept name yields an edit. */
  predicate AllEdits(files: map<string, string>, kept: seq<string>, day: string) {
    forall n <- kept :: StampOf(n).Ok? && DiffName(day, StampOf(n).value) in files
  }

  /** The edit that one kept name stands for (a placeholder for names that have none). */
  function EditOf(files: map<string, string>, name: string, day: string): Edit {
    if StampOf(name).Ok? && DiffName(day, StampOf(name).value) in files then
      Edit(StampOf(name).value, |files[DiffName(day, StampOf(name).value)]|)
    else Edit(0, 0)
  }

  /** Sorting the edits of the kept names keeps one edit per name. */
  lemma SortedKept(files: map<string, string>, day: string, kept: seq<string>, z: seq<Edit>)
    requires Total(EditLe) && Transitive(EditLe)
    requires |z| == |kept| && forall i :: 0 <= i < |kept| ==> z[i] == EditOf(files, kept[i], day)
    ensures |Sort(z, EditLe)| == |kept|
    ensures forall e <- Sort(z, EditLe) :: exists n <- kept :: e == EditOf(files, n, day)
    ensures forall n <- kept :: EditOf(files, n, day) in Sort(z, EditLe)
  {
    SortElements(z, EditLe);
    forall e <- Sort(z, EditLe) ensures exists n <- kept :: e == EditOf(files, n, day) {
      var i :| 0 <= i < |z| && z[i] == e;
      assert kept[i] in kept;
    }
    forall n <- kept ensures EditOf(files, n, day) in Sort(z, EditLe) {
      var i :| 0 <= i < |kept| && kept[i] == n;
      assert z[i] in z;
    }
  }

  /** The unsorted list succeeds exactly when every kept name yields an edit, and then holds those edits. */
  lemma UnsortedEdits(files: map<string, string>, dirPath: string, day: string, kept: seq<string>)
    ensures Unsorted(files, dirPath, day, kept).Ok? <==> AllEdits(files, kept, day)
    ensures Unsorted(files, dirPath, day, kept).Ok? ==>
      var z := Unsorted(files, dirPath, day, kept).value;
      |z| == |kept| && forall i :: 0 <= i < |kept| ==> z[i] == EditOf(files, kept[i], day)
  {
    if ParseStamps(kept).Err? {
      var i :| 0 <= i < |kept| && StampOf(kept[i]) == Err(ParseStamps(kept).error);
      assert kept[i] in kept;
    } else {
      var stamps := ParseStamps(kept).value;
      if Sizes(files, dirPath, day, stamps).Err? {
        var i :| 0 <= i < |stamps| && DiffName(day, stamps[i]) !in files;
        assert kept[i] in kept;
      } else {
        forall n <- kept ensures StampOf(n).Ok? && DiffName(day, StampOf(n).value) in files {
          var i :| 0 <= i < |kept| && kept[i] == n;
        }
      }
    }
  }

  /** `get_edits` does not depend on the order in which the directory is listed. */
  lemma GetEditsOrderIndependent(files: map<string, string>, names1: seq<string>, names2: seq<string>, dirPath: string, day: string)
    requires IsListing(names1, files) && IsListing(names2, files)
    ensures GetEdits(Some(files), names1, dirPath, day).Ok? <==> GetEdits(Some(files), names2, dirPath, day).Ok?
    ensures GetEdits(Some(files), names1, dirPath, day).Ok? ==>
      GetEdits(Some(files), names1, dirPath, day) == GetEdits(Some(files), names2, dirPath, day)
  {
    var k1, k2 := DayFiles(names1, day), DayFiles(names2, day);
    var u1, u2 := Unsorted(files, dirPath, day, k1), Unsorted(files, dirPath, day, k2);
    UnsortedPermutation(files, dirPath, day, k1, k2);
    if u1.Ok? {
      EditLeTotalOrder();
      SortPermutationInvariant(u1.value, u2.value, EditLe);
    }
  }

  /** The unsorted edits of two orderings of the same names are permutations of each other. */
  lemma UnsortedPermutation(files: map<string, string>, dirPath: string, day: string, k1: seq<string>, k2: seq<string>)
    requires Distinct(k1) && Distinct(k2)
    requires forall n :: n in k1 <==> n in k2
    ensures Unsorted(files, dirPath, day, k1).Ok? <==> Unsorted(files, dirPath, day, k2).Ok?
    ensures Unsorted(files, dirPath, day, k1).Ok? ==>
      multiset(Unsorted(files, dirPath, day, k1).value) == multiset(Unsorted(files, dirPath, day, k2).value)
  {
    DistinctSameElements(k1, k2);
    UnsortedEdits(files, dirPath, day, k1);
    UnsortedEdits(files, dirPath, day, k2);
    assert AllEdits(files, k1, day) <==> AllEdits(files, k2, day);
    if AllEdits(files, k1, day) {
      var f := n => EditOf(files, n, day);
      UnsortedIsMap(files, dirPath, day, k1, f);
      UnsortedIsMap(files, dirPath, day, k2, f);
      MapPermutation(f, k1, k2);
    }
  }

  /** The unsorted edits are the kept names mapped to their edits. */
  lemma UnsortedIsMap(files: map<string, string>, dirPath: string, day: string, kept: seq<string>, f: string -> Edit)
    requires Unsorted(files, dirPath, day, kept).Ok?
    requires |Unsorted(files, dirPath, day, kept).value| == |kept|
    requires forall i :: 0 <= i < |kept| ==> Unsorted(files, dirPath, day, kept).value[i] == EditOf(files, kept[i], day)
    requires forall n :: f(n) == EditOf(files, n, day)
    ensures Unsorted(files, dirPath, day, kept).value == MapSeq(f, kept)
  {
  }

  // ---------------------------------------------------------------------
  // save_tmp_version

  /**
    Applies the patch of each edit of `pending` to `text`, in the order
    given; a missing diff file raises `IOError` when it is opened.
  */
  function ApplyPatches(c: Codec, files: map<string, string>, dirPath: string, day: string, text: string, pending: seq<Edit>): Result<string>
    decreases |pending|
  {
    if pending == [] then Ok(text)
    else
      var name := DiffName(day, pending[0].ts);
      if name !in files then Err(IOError(PathJoin(dirPath, name)))
      else ApplyPatches(c, files, dirPath, day, c.apply(files[name], text), pending[1..])
  }

  /** The patches `save_tmp_version` applies, newest first: every edit after `index`. */
  function Pending(edits: seq<Edit>, index: nat): (r: seq<Edit>)
    requires index < |edits|
    ensures multiset(r) == multiset(edits[index + 1..])
    ensures forall i, j :: 0 <= i < j < |r| ==> EditLe(r[j], r[i])
  {
    EditLeTotalOrder();
    SortDescending(edits[index + 1..], EditLe)
  }

  /** The text of the entry as it was right after edit `index`, from its `current` text. */
  function Rebuild(c: Codec, files: map<string, string>, dirPath: string, day: string, current: string, edits: seq<Edit>, index: nat): Result<string>
    requires index < |edits|
  {
    ApplyPatches(c, files, dirPath, day, current, Pending(edits, index))
  }

  /** The last edit is the current text: nothing is applied. */
  lemma RebuildLast(c: Codec, files: map<string, string>, dirPath: string, day: string, current: string, edits: seq<Edit>)
    requires |edits| > 0
    ensures Rebuild(c, files, dirPath, day, current, edits, |edits| - 1) == Ok(current)
  {
    assert multiset(Pending(edits, |edits| - 1)) == multiset{};
  }

  /**
    With distinct timestamps, the patches applied for `index` are exactly
    the edits made after it; in particular the creation marker `edits[0]`
    is never applied.
  */
  lemma PendingAreNewer(edits: seq<Edit>, index: nat)
    requires index < |edits|
    requires forall i, j :: 0 <= i < j < |edits| ==> edits[i].ts < edits[j].ts
    ensures forall e :: e in Pending(edits, index) <==> e in edits && e.ts > edits[index].ts
    ensures edits[0] !in Pending(edits, index)
  {
    var tail := edits[index + 1..];
    forall e ensures e in Pending(edits, index) <==> e in edits && e.ts > edits[index].ts {
      assert e in Pending(edits, index) <==> e in multiset(tail);
      if e in tail {
        var k :| 0 <= k < |tail| && tail[k] == e;
        assert edits[index + 1 + k] == e;
      }
      if e in edits && e.ts > edits[index].ts {
        var k :| 0 <= k < |edits| && edits[k] == e;
        assert k > index;
        assert tail[k - index - 1] == e;
      }
    }
    if index > 0 {
      assert edits[0].ts < edits[index].ts;
    }
  }

  lemma {:induction false} ApplyPatchesSnoc(c: Codec, files: map<string, string>, dirPath: string, day: string, text: string, pending: seq<Edit>, e: Edit)
    ensures ApplyPatches(c, files, dirPath, day, text, pending + [e]) ==
      match ApplyPatches(c, files, dirPath, day, text, pending)
      case Err(err) => Err(err)
      case Ok(t) => ApplyPatches(c, files, dirPath, day, t, [e])
    decreases |pending|
  {
    if pending == [] {
      assert pending + [e] == [e];
    } else {
      assert (pending + [e])[1..] == pending[1..] + [e];
      var name := DiffName(day, pending[0].ts);
      if name in files {
        ApplyPatchesSnoc(c, files, dirPath, day, c.apply(files[name], text), pending[1..], e);
      }
    }
  }

  // ---------------------------------------------------------------------
  // The history of one day's entry

  /** The entry's text right after an edit made at time `ts`. */
  datatype Revision = Revision(ts: nat, content: string)

  /** Revisions in strictly increasing time order. */
  predicate Chronological(hist: seq<Revision>) {
    forall i, j :: 0 <= i < j < |hist| ==> hist[i].ts < hist[j].ts
  }

  /**
    Every revision of `hist` has its diff file: the first (the creation
    marker) is empty, each later one is a patch from that revision back to
    the one before it.
  */
  ghost predicate Stored(c: Codec, files: map<string, string>, day: string, hist: seq<Revision>) {
    && |hist| > 0
    && HasFiles(files, day, hist)
    && files[DiffName(day, hist[0].ts)] == ""
    && (forall i {:trigger files[DiffName(day, hist[i].ts)]} :: 0 < i < |hist| ==> files[DiffName(day, hist[i].ts)] == c.diff(hist[i].content, hist[i - 1].content))
  }

  /** Every revision of `hist` has a diff file. */
  predicate HasFiles(files: map<string, string>, day: string, hist: seq<Revision>) {
    forall i :: 0 <= i < |hist| ==> DiffName(day, hist[i].ts) in files
  }

  /** The day has no edit file besides those of `hist`. */
  ghost predicate OnlyThese(files: map<string, string>, day: string, hist: seq<Revision>) {
    forall n :: n in files && IsEditFile(day, n) ==> exists i :: 0 <= i < |hist| && n == DiffName(day, hist[i].ts)
  }

  /** `files` records exactly the history `hist` of `day`. */
  ghost predicate Records(c: Codec, files: map<string, string>, day: string, hist: seq<Revision>) {
    Chronological(hist) && Stored(c, files, day, hist) && OnlyThese(files, day, hist)
  }

  /** The list `get_edits` should give for a history. */
  function EditsOf(files: map<string, string>, day: string, hist: seq<Revision>): seq<Edit>
    requires HasFiles(files, day, hist)
  {
    seq(|hist|, i requires 0 <= i < |hist| => Edit(hist[i].ts, |files[DiffName(day, hist[i].ts)]|))
  }

  /** `get_edits` lists exactly the recorded revisions, oldest first, the creation marker with size 0. */
  lemma ListsHistory(c: Codec, files: map<string, string>, names: seq<string>, dirPath: string, day: string, hist: seq<Revision>)
    requires IsDayName(day)
    requires Records(c, files, day, hist)
    requires IsListing(names, files)
    ensures GetEdits(Some(files), names, dirPath, day) == Ok(EditsOf(files, day, hist))
    ensures EditsOf(files, day, hist)[0].size == 0
  {
    var kept := DayFiles(names, day);
    var edits := EditsOf(files, day, hist);
    UnsortedIsHistory(c, files, names, dirPath, day, hist);
    var z := Unsorted(files, dirPath, day, kept).value;
    EditsOfSorted(files, day, hist);
    DistinctSameElements(z, edits);
    EditLeTotalOrder();
    SortedUnique(Sort(z, EditLe), edits, EditLe);
    assert GetEdits(Some(files), names, dirPath, day) == Ok(Sort(z, EditLe));
    assert files[DiffName(day, hist[0].ts)] == "";
  }

  /** The edits of a chronological history are in increasing time order, so sorted and distinct. */
  lemma EditsOfSorted(files: map<string, string>, day: string, hist: seq<Revision>)
    requires HasFiles(files, day, hist) && Chronological(hist)
    ensures SortedBy(EditsOf(files, day, hist), EditLe) && Distinct(EditsOf(files, day, hist))
  {
  }

  /** Before sorting, `get_edits` holds each edit of the history once. */
  lemma UnsortedIsHistory(c: Codec, files: map<string, string>, names: seq<string>, dirPath: string, day: string, hist: seq<Revision>)
    requires IsDayName(day)
    requires Records(c, files, day, hist)
    requires IsListing(names, files)
    ensures Unsorted(files, dirPath, day, DayFiles(names, day)).Ok?
    ensures Distinct(Unsorted(files, dirPath, day, DayFiles(names, day)).value)
    ensures forall e :: e in Unsorted(files, dirPath, day, DayFiles(names, day)).value <==> e in EditsOf(files, day, hist)
  {
    var kept := DayFiles(names, day);
    KeptAreRevisions(files, names, day, hist);
    UnsortedEdits(files, dirPath, day, kept);
    var z := Unsorted(files, dirPath, day, kept).value;
    UnsortedDistinct(files, kept, day, hist, z);
    UnsortedSameEdits(files, kept, day, hist, z);
  }

  lemma UnsortedDistinct(files: map<string, string>, kept: seq<string>, day: string, hist: seq<Revision>, z: seq<Edit>)
    requires IsDayName(day)
    requires HasFiles(files, day, hist) && Chronological(hist)
    requires Distinct(kept)
    requires forall n <- kept :: exists i :: 0 <= i < |hist| && n == DiffName(day, hist[i].ts)
    requires |z| == |kept| && forall i :: 0 <= i < |kept| ==> z[i] == EditOf(files, kept[i], day)
    ensures Distinct(z)
  {
    forall i, j | 0 <= i < j < |z| ensures z[i] != z[j] {
      assert kept[i] in kept && kept[j] in kept;
      var a :| 0 <= a < |hist| && kept[i] == DiffName(day, hist[a].ts);
      var b :| 0 <= b < |hist| && kept[j] == DiffName(day, hist[b].ts);
      RevisionEdit(files, day, hist, a);
      RevisionEdit(files, day, hist, b);
    }
  }

  lemma UnsortedSameEdits(files: map<string, string>, kept: seq<string>, day: string, hist: seq<Revision>, z: seq<Edit>)
    requires IsDayName(day)
    requires HasFiles(files, day, hist) && Chronological(hist)
    requires forall n <- kept :: exists i :: 0 <= i < |hist| && n == DiffName(day, hist[i].ts)
    requires forall i :: 0 <= i < |hist| ==> DiffName(day, hist[i].ts) in kept
    requires |z| == |kept| && forall i :: 0 <= i < |kept| ==> z[i] == EditOf(files, kept[i], day)
    ensures forall e :: e in z <==> e in EditsOf(files, day, hist)
  {
    var edits := EditsOf(files, day, hist);
    forall e ensures e in z <==> e in edits {
      if e in z {
        var i :| 0 <= i < |z| && z[i] == e;
        assert kept[i] in kept;
        var a :| 0 <= a < |hist| && kept[i] == DiffName(day, hist[a].ts);
        RevisionEdit(files, day, hist, a);
      }
      if e in edits {
        var a :| 0 <= a < |edits| && edits[a] == e;
        var i :| 0 <= i < |kept| && kept[i] == DiffName(day, hist[a].ts);
        RevisionEdit(files, day, hist, a);
        assert z[i] == e;
      }
    }
  }

  /** The names `get_edits` keeps are the diff files of the revisions, and all of them are kept. */
  lemma KeptAreRevisions(files: map<string, string>, names: seq<string>, day: string, hist: seq<Revision>)
    requires IsDayName(day)
    requires HasFiles(files, day, hist) && OnlyThese(files, day, hist)
    requires IsListing(names, files)
    ensures forall n <- DayFiles(names, day) :: exists i :: 0 <= i < |hist| && n == DiffName(day, hist[i].ts)
    ensures forall i :: 0 <= i < |hist| ==> DiffName(day, hist[i].ts) in DayFiles(names, day)
    ensures AllEdits(files, DayFiles(names, day), day)
  {
    forall i | 0 <= i < |hist| ensures DiffName(day, hist[i].ts) in DayFiles(names, day) {
      DiffNameParses(day, hist[i].ts);
    }
    forall n <- DayFiles(names, day) ensures StampOf(n).Ok? && DiffName(day, StampOf(n).value) in files {
      var i :| 0 <= i < |hist| && n == DiffName(day, hist[i].ts);
      DiffNameParses(day, hist[i].ts);
    }
  }

  /** The edit `get_edits` derives from a revision's diff file is the one `EditsOf` lists. */
  lemma RevisionEdit(files: map<string, string>, day: string, hist: seq<Revision>, a: nat)
    requires IsDayName(day)
    requires HasFiles(files, day, hist) && Chronological(hist)
    requires a < |hist|
    ensures EditOf(files, DiffName(day, hist[a].ts), day) == EditsOf(files, day, hist)[a]
    ensures forall b :: 0 <= b < |hist| && DiffName(day, hist[b].ts) == DiffName(day, hist[a].ts) ==> b == a
  {
    DiffNameParses(day, hist[a].ts);
    forall b | 0 <= b < |hist| && DiffName(day, hist[b].ts) == DiffName(day, hist[a].ts) ensures b == a {
      DiffNameInjective(day, hist[b].ts, hist[a].ts);
    }
  }

  /** The central guarantee: rebuilding edit `k` from the current text gives the text right after revision `k`. */
  lemma Reconstructs(c: Codec, files: map<string, string>, dirPath: string, day: string, hist: seq<Revision>, k: nat)
    requires Sound(c)
    requires Records(c, files, day, hist)
    requires k < |hist|
    ensures Rebuild(c, files, dirPath, day, hist[|hist| - 1].content, EditsOf(files, day, hist), k) == Ok(hist[k].content)
  {
    var edits := EditsOf(files, day, hist);
    EditLeTotalOrder();
    var tail := edits[k + 1..];
    assert SortedBy(tail, EditLe) by {
      forall i, j | 0 <= i < j < |tail| ensures EditLe(tail[i], tail[j]) {
        assert tail[i] == edits[k + 1 + i] && tail[j] == edits[k + 1 + j];
      }
    }
    SortSorted(tail, EditLe);
    assert Pending(edits, k) == Reverse(tail);
    ReconstructsFrom(c, files, dirPath, day, hist, edits, k);
  }

  lemma {:induction false} ReconstructsFrom(c: Codec, files: map<string, string>, dirPath: string, day: string, hist: seq<Revision>, edits: seq<Edit>, j: nat)
    requires Sound(c)
    requires Stored(c, files, day, hist)
    requires |edits| == |hist| && forall i :: 0 <= i < |hist| ==> edits[i].ts == hist[i].ts
    requires j < |hist|
    ensures ApplyPatches(c, files, dirPath, day, hist[|hist| - 1].content, Reverse(edits[j + 1..])) == Ok(hist[j].content)
    decreases |hist| - j
  {
    var last := hist[|hist| - 1].content;
    if j == |hist| - 1 {
      assert edits[j + 1..] == [];
    } else {
      ReconstructsFrom(c, files, dirPath, day, hist, edits, j + 1);
      var newer := Reverse(edits[j + 2..]);
      var e := edits[j + 1];
      assert edits[j + 1..][1..] == edits[j + 2..];
      assert Reverse(edits[j + 1..]) == newer + [e];
      ApplyPatchesSnoc(c, files, dirPath, day, last, newer, e);
      var name := DiffName(day, hist[j + 1].ts);
      assert e.ts == hist[j + 1].ts;
      assert name in files && files[name] == c.diff(hist[j + 1].content, hist[j].content);
      ApplyOne(c, files, dirPath, day, hist[j + 1].content, e);
      assert c.apply(files[name], hist[j + 1].content) == hist[j].content;
    }
  }

  /** A single patch whose diff file exists. */
  lemma ApplyOne(c: Codec, files: map<string, string>, dirPath: string, day: string, text: string, e: Edit)
    requires DiffName(day, e.ts) in files
    ensures ApplyPatches(c, files, dirPath, day, text, [e]) == Ok(c.apply(files[DiffName(day, e.ts)], text))
  {
    assert [e][1..] == [];
  }

  // ---------------------------------------------------------------------
  // edit_date, seen from one day

  /** One day's entry file (`None` when there is none) and its month's diff files. */
  datatype Day = Day(entry: Option<string>, files: map<string, string>)

  /**
    What a successful `edit_date` at time `now` does to `s`, given the text
    the editor left (`after`): a new entry gets an empty creation marker, an
    existing one a patch from the new text back to the old, unless the text
    is unchanged. `None` when the editor removed an existing entry, so that
    reading it back fails.
  */
  function Record(c: Codec, s: Day, day: string, now: nat, after: Option<string>): Option<Day> {
    var name := DiffName(day, now);
    match s.entry
    case None => Some(Day(after, s.files[name := ""]))
    case Some(before) =>
      if after.None? then None
      else
        var patch := c.diff(after.value, before);
        Some(Day(after, if patch != "" then s.files[name := patch] else s.files))
  }

  /** An editor session that leaves the entry with `after`, at time `now`. */
  datatype Session = Session(now: nat, after: string)

  /** The state after `sessions`, one `Record` each. */
  function Replay(c: Codec, s: Day, day: string, sessions: seq<Session>): Day {
    if sessions == [] then s
    else
      var before := Replay(c, s, day, sessions[..|sessions| - 1]);
      var last := sessions[|sessions| - 1];
      match Record(c, before, day, last.now, Some(last.after))
      case Some(next) => next
      case None => before
  }

  /** The revisions those sessions leave behind: the first, then each that changed the text. */
  function History(c: Codec, sessions: seq<Session>): seq<Revision> {
    if sessions == [] then []
    else
      var hist := History(c, sessions[..|sessions| - 1]);
      var last := sessions[|sessions| - 1];
      if hist == [] then [Revision(last.now, last.after)]
      else if c.diff(last.after, hist[|hist| - 1].content) != "" then hist + [Revision(last.now, last.after)]
      else hist
  }

  /** Sessions happen at strictly increasing times (whole seconds). */
  predicate Increasing(sessions: seq<Session>) {
    forall i, j :: 0 <= i < j < |sessions| ==> sessions[i].now < sessions[j].now
  }

  /**
    After `sessions`, the entry holds the last recorded revision and the
    diff files record the whole history, no revision later than the last
    session.
  */
  ghost predicate Replayed(c: Codec, files: map<string, string>, day: string, sessions: seq<Session>)
    requires |sessions| > 0
  {
    var hist := History(c, sessions);
    var s := Replay(c, Day(None, files), day, sessions);
    && |hist| > 0
    && s.entry == Some(hist[|hist| - 1].content)
    && Records(c, s.files, day, hist)
    && hist[|hist| - 1].ts <= sessions[|sessions| - 1].now
  }

  /**
    Editing a day that had no entry and no diff files, once per session,
    leaves the entry holding the last text and a diff directory that
    records the history of the sessions.
  */
  lemma {:induction false} ReplayRecords(c: Codec, files: map<string, string>, day: string, sessions: seq<Session>)
    requires Sound(c)
    requires IsDayName(day)
    requires forall n <- files :: !IsEditFile(day, n)
    requires Increasing(sessions) && |sessions| > 0
    ensures Replayed(c, files, day, sessions)
    decreases |sessions|
  {
    var last := sessions[|sessions| - 1];
    if |sessions| == 1 {
      assert sessions[..0] == [];
      FirstRecord(c, files, day, last.now, last.after);
    } else {
      var earlier := sessions[..|sessions| - 1];
      assert Increasing(earlier);
      ReplayRecords(c, files, day, earlier);
      ReplayStep(c, files, day, sessions);
    }
  }

  lemma ReplayStep(c: Codec, files: map<string, string>, day: string, sessions: seq<Session>)
    requires Sound(c)
    requires IsDayName(day)
    requires Increasing(sessions) && |sessions| > 1
    requires Replayed(c, files, day, sessions[..|sessions| - 1])
    ensures Replayed(c, files, day, sessions)
  {
    var last := sessions[|sessions| - 1];
    var earlier := sessions[..|sessions| - 1];
    var hist := History(c, earlier);
    var before := Replay(c, Day(None, files), day, earlier);
    var prev := hist[|hist| - 1];
    assert prev.ts < last.now by {
      assert earlier[|earlier| - 1] == sessions[|sessions| - 2];
    }
    if c.diff(last.after, prev.content) != "" {
      ReplayChanged(c, files, day, sessions, before, hist);
    } else {
      ReplayUnchanged(c, files, day, sessions, before, hist);
    }
  }

  /** A session that changes the text adds a revision and its patch. */
  lemma ReplayChanged(c: Codec, files: map<string, string>, day: string, sessions: seq<Session>, before: Day, hist: seq<Revision>)
    requires IsDayName(day)
    requires |sessions| > 1
    requires before == Replay(c, Day(None, files), day, sessions[..|sessions| - 1])
    requires hist == History(c, sessions[..|sessions| - 1])
    requires |hist| > 0 && before.entry == Some(hist[|hist| - 1].content) && Records(c, before.files, day, hist)
    requires hist[|hist| - 1].ts < sessions[|sessions| - 1].now
    requires c.diff(sessions[|sessions| - 1].after, hist[|hist| - 1].content) != ""
    ensures Replayed(c, files, day, sessions)
  {
    var last := sessions[|sessions| - 1];
    var patch := c.diff(last.after, hist[|hist| - 1].content);
    var next := Day(Some(last.after), before.files[DiffName(day, last.now) := patch]);
    RecordStep(c, before, day, last.now, last.after, hist[|hist| - 1].content);
    ReplayLast(c, Day(None, files), day, sessions, before, next);
    HistoryLast(c, sessions, hist);
    NextRecord(c, before.files, day, hist, last.now, last.after);
    ReplayedFrom(c, files, day, sessions, hist + [Revision(last.now, last.after)], next);
  }

  /** A session that leaves the text as it was changes nothing that is recorded. */
  lemma ReplayUnchanged(c: Codec, files: map<string, string>, day: string, sessions: seq<Session>, before: Day, hist: seq<Revision>)
    requires Sound(c)
    requires |sessions| > 1
    requires before == Replay(c, Day(None, files), day, sessions[..|sessions| - 1])
    requires hist == History(c, sessions[..|sessions| - 1])
    requires |hist| > 0 && before.entry == Some(hist[|hist| - 1].content) && Records(c, before.files, day, hist)
    requires hist[|hist| - 1].ts < sessions[|sessions| - 1].now
    requires c.diff(sessions[|sessions| - 1].after, hist[|hist| - 1].content) == ""
    ensures Replayed(c, files, day, sessions)
  {
    var last := sessions[|sessions| - 1];
    var next := Day(Some(last.after), before.files);
    RecordStep(c, before, day, last.now, last.after, hist[|hist| - 1].content);
    ReplayLast(c, Day(None, files), day, sessions, before, next);
    HistoryLast(c, sessions, hist);
    assert c.apply(c.diff(last.after, hist[|hist| - 1].content), last.after) == hist[|hist| - 1].content;
    ReplayedFrom(c, files, day, sessions, hist, next);
  }

  /** `Replayed` from the replayed state and history, named. */
  lemma ReplayedFrom(c: Codec, files: map<string, string>, day: string, sessions: seq<Session>, hist: seq<Revision>, s: Day)
    requires |sessions| > 0
    requires History(c, sessions) == hist && Replay(c, Day(None, files), day, sessions) == s
    requires |hist| > 0 && s.entry == Some(hist[|hist| - 1].content) && Records(c, s.files, day, hist)
    requires hist[|hist| - 1].ts <= sessions[|sessions| - 1].now
    ensures Replayed(c, files, day, sessions)
  {
  }

  /** `Record` on an existing entry: the patch back to the old text is stored unless it is empty. */
  lemma RecordStep(c: Codec, s: Day, day: string, now: nat, after: string, prev: string)
    requires s.entry == Some(prev)
    ensures var patch := c.diff(after, prev);
      Record(c, s, day, now, Some(after)) == Some(Day(Some(after), if patch != "" then s.files[DiffName(day, now) := patch] else s.files))
  {
  }

  /** `Replay` ends with the `Record` of the last session. */
  lemma ReplayLast(c: Codec, s: Day, day: string, sessions: seq<Session>, before: Day, next: Day)
    requires |sessions| > 0 && before == Replay(c, s, day, sessions[..|sessions| - 1])
    requires Record(c, before, day, sessions[|sessions| - 1].now, Some(sessions[|sessions| - 1].after)) == Some(next)
    ensures Replay(c, s, day, sessions) == next
  {
  }

  /** `History` gains the last session exactly when its text differs from the last revision. */
  lemma HistoryLast(c: Codec, sessions: seq<Session>, hist: seq<Revision>)
    requires |sessions| > 0 && hist == History(c, sessions[..|sessions| - 1]) && hist != []
    ensures var last := sessions[|sessions| - 1];
      History(c, sessions) == if c.diff(last.after, hist[|hist| - 1].content) != "" then hist + [Revision(last.now, last.after)] else hist
  {
  }

  /** The first session of a day without diff files records a one-revision history. */
  lemma FirstRecord(c: Codec, files: map<string, string>, day: string, now: nat, after: string)
    requires IsDayName(day)
    requires forall n <- files :: !IsEditFile(day, n)
    ensures Records(c, files[DiffName(day, now) := ""], day, [Revision(now, after)])
  {
    DiffNameParses(day, now);
  }

  /** A later session that changes the text records one more revision. */
  lemma NextRecord(c: Codec, files: map<string, string>, day: string, hist: seq<Revision>, now: nat, after: string)
    requires IsDayName(day)
    requires Records(c, files, day, hist)
    requires hist[|hist| - 1].ts < now
    ensures Records(c, files[DiffName(day, now) := c.diff(after, hist[|hist| - 1].content)], day, hist + [Revision(now, after)])
  {
    var name := DiffName(day, now);
    var f := files[name := c.diff(after, hist[|hist| - 1].content)];
    var h := hist + [Revision(now, after)];
    NewName(c, files, day, hist, now);
    ChronologicalSnoc(hist, Revision(now, after));
    assert f.Keys == files.Keys + {name};
    assert h[..|hist|] == hist && h[|hist|].ts == now;
    NextOnlyThese(files, day, hist, name, f, h);
    NextStored(c, files, day, hist, now, after);
  }

  /** A revision later than the last one extends a chronological history. */
  lemma ChronologicalSnoc(hist: seq<Revision>, r: Revision)
    requires Chronological(hist) && |hist| > 0 && hist[|hist| - 1].ts < r.ts
    ensures Chronological(hist + [r])
  {
    var h := hist + [r];
    forall i, j | 0 <= i < j < |h| ensures h[i].ts < h[j].ts {
      if j == |hist| {
        assert h[i] == hist[i];
        if i < |hist| - 1 { assert hist[i].ts < hist[|hist| - 1].ts; }
      } else {
        assert h[i] == hist[i] && h[j] == hist[j];
      }
    }
  }

  /** A later session's diff file does not overwrite an earlier one. */
  lemma NewName(c: Codec, files: map<string, string>, day: string, hist: seq<Revision>, now: nat)
    requires Chronological(hist) && |hist| > 0
    requires hist[|hist| - 1].ts < now
    ensures forall i :: 0 <= i < |hist| ==> DiffName(day, hist[i].ts) != DiffName(day, now)
  {
    forall i | 0 <= i < |hist| ensures DiffName(day, hist[i].ts) != DiffName(day, now) {
      if DiffName(day, hist[i].ts) == DiffName(day, now) {
        DiffNameInjective(day, hist[i].ts, now);
      }
    }
  }

  lemma NextOnlyThese(files: map<string, string>, day: string, hist: seq<Revision>, name: string, f: map<string, string>, h: seq<Revision>)
    requires OnlyThese(files, day, hist)
    requires f.Keys == files.Keys + {name}
    requires |h| == |hist| + 1 && h[..|hist|] == hist && name == DiffName(day, h[|hist|].ts)
    ensures OnlyThese(f, day, h)
  {
    forall n | n in f && IsEditFile(day, n) ensures exists i :: 0 <= i < |h| && n == DiffName(day, h[i].ts) {
      if n != name {
        var i :| 0 <= i < |hist| && n == DiffName(day, hist[i].ts);
        assert h[i] == hist[i];
      }
    }
  }

  lemma NextStored(c: Codec, files: map<string, string>, day: string, hist: seq<Revision>, now: nat, after: string)
    requires Stored(c, files, day, hist)
    requires forall i :: 0 <= i < |hist| ==> DiffName(day, hist[i].ts) != DiffName(day, now)
    ensures Stored(c, files[DiffName(day, now) := c.diff(after, hist[|hist| - 1].content)], day, hist + [Revision(now, after)])
  {
    StoredSnocNames(c, files, day, hist, now, after);
    StoredSnocFirst(c, files, day, hist, now, after);
    StoredSnocPatches(c, files, day, hist, now, after);
  }

  /** After one more revision, every revision has its diff file. */
  lemma StoredSnocNames(c: Codec, files: map<string, string>, day: string, hist: seq<Revision>, now: nat, after: string)
    requires Stored(c, files, day, hist)
    requires forall i :: 0 <= i < |hist| ==> DiffName(day, hist[i].ts) != DiffName(day, now)
    ensures var f := files[DiffName(day, now) := c.diff(after, hist[|hist| - 1].content)]; var h := hist + [Revision(now, after)];
      forall i :: 0 <= i < |h| ==> DiffName(day, h[i].ts) in f
  {
    var name := DiffName(day, now);
    var v := c.diff(after, hist[|hist| - 1].content);
    var f := files[name := v];
    var h := hist + [Revision(now, after)];
    forall i | 0 <= i < |h| ensures DiffName(day, h[i].ts) in f {
      if i < |hist| { assert h[i] == hist[i]; }
    }
  }

  /** The creation marker is kept. */
  lemma StoredSnocFirst(c: Codec, files: map<string, string>, day: string, hist: seq<Revision>, now: nat, after: string)
    requires Stored(c, files, day, hist)
    requires forall i :: 0 <= i < |hist| ==> DiffName(day, hist[i].ts) != DiffName(day, now)
    ensures var f := files[DiffName(day, now) := c.diff(after, hist[|hist| - 1].content)]; var h := hist + [Revision(now, after)];
      f[DiffName(day, h[0].ts)] == ""
  {
    var name := DiffName(day, now);
    var v := c.diff(after, hist[|hist| - 1].content);
    var h := hist + [Revision(now, after)];
    KeptPatch(c, files, day, hist, name, v, 0);
    assert h[0] == hist[0];
  }

  /** Every revision after the first keeps its patch, and the new one is a patch back to the last. */
  lemma StoredSnocPatches(c: Codec, files: map<string, string>, day: string, hist: seq<Revision>, now: nat, after: string)
    requires Stored(c, files, day, hist)
    requires forall i :: 0 <= i < |hist| ==> DiffName(day, hist[i].ts) != DiffName(day, now)
    ensures var f := files[DiffName(day, now) := c.diff(after, hist[|hist| - 1].content)]; var h := hist + [Revision(now, after)];
      forall i {:trigger f[DiffName(day, h[i].ts)]} :: 0 < i < |h| ==> DiffName(day, h[i].ts) in f && f[DiffName(day, h[i].ts)] == c.diff(h[i].content, h[i - 1].content)
  {
    forall i | 0 < i <= |hist| {
      SnocPatch(c, files, day, hist, now, after, i);
    }
  }

  lemma SnocPatch(c: Codec, files: map<string, string>, day: string, hist: seq<Revision>, now: nat, after: string, i: nat)
    requires Stored(c, files, day, hist)
    requires forall i :: 0 <= i < |hist| ==> DiffName(day, hist[i].ts) != DiffName(day, now)
    requires 0 < i <= |hist|
    ensures var f := files[DiffName(day, now) := c.diff(after, hist[|hist| - 1].content)]; var h := hist + [Revision(now, after)];
      DiffName(day, h[i].ts) in f && f[DiffName(day, h[i].ts)] == c.diff(h[i].content, h[i - 1].content)
  {
    var name := DiffName(day, now);
    var v := c.diff(after, hist[|hist| - 1].content);
    var h := hist + [Revision(now, after)];
    if i < |hist| {
      KeptPatch(c, files, day, hist, name, v, i);
      assert h[i] == hist[i] && h[i - 1] == hist[i - 1];
    } else {
      assert h[i] == Revision(now, after) && h[i - 1] == hist[|hist| - 1];
    }
  }

  /** Adding a new diff file keeps each earlier revision's file. */
  lemma KeptPatch(c: Codec, files: map<string, string>, day: string, hist: seq<Revision>, name: string, v: string, i: nat)
    requires Stored(c, files, day, hist)
    requires i < |hist|
    requires DiffName(day, hist[i].ts) != name
    ensures files[name := v][DiffName(day, hist[i].ts)] == if i == 0 then "" else c.diff(hist[i].content, hist[i - 1].content)
  {
  }

  /**
    Every version a sequence of editor sessions produced can be rebuilt:
    `get_edits` lists one edit per recorded revision, and replaying the
    patches after edit `k` from the current entry gives revision `k`.
  */
  lemma SessionsReconstruct(c: Codec, files: map<string, string>, names: seq<string>, dirPath: string, day: string, sessions: seq<Session>, k: nat)
    requires Sound(c)
    requires IsDayName(day)
    requires forall n <- files :: !IsEditFile(day, n)
    requires Increasing(sessions) && |sessions| > 0
    requires IsListing(names, Replay(c, Day(None, files), day, sessions).files)
    requires k < |History(c, sessions)|
    ensures var s := Replay(c, Day(None, files), day, sessions);
      && s.entry.Some?
      && GetEdits(Some(s.files), names, dirPath, day).Ok?
      && |GetEdits(Some(s.files), names, dirPath, day).value| == |History(c, sessions)|
      && Rebuild(c, s.files, dirPath, day, s.entry.value, GetEdits(Some(s.files), names, dirPath, day).value, k)
         == Ok(History(c, sessions)[k].content)
  {
    var s := Replay(c, Day(None, files), day, sessions);
    var hist := History(c, sessions);
    ReplayRecords(c, files, day, sessions);
    assert s.entry == Some(hist[|hist| - 1].content) && Records(c, s.files, day, hist);
    ListsHistory(c, s.files, names, dirPath, day, hist);
    var edits := EditsOf(s.files, day, hist);
    assert GetEdits(Some(s.files), names, dirPath, day) == Ok(edits);
    Reconstructs(c, s.files, dirPath, day, hist, k);
  }

}

// The journal on disk: the entries directory (one file per day, in a
// directory per month) and the diffs directory (the reverse patches of each
// entry, in a directory per month), and the operations of edit.py that
// change them: edit_date, save_tmp_version and clean_tmp.

module Journal {
  import opened Wrappers
  import opened Strings
  import opened Dates
  import opened Revisions

  /** A file-system tree: a file with its text, or a directory by entry name. */
  datatype Node = File(content: string) | Dir(children: map<string, Node>)

  /** The entries of directory `name` in `tree`; nothing when it is not a directory. */
  function Sub(tree: map<string, Node>, name: string): map<string, Node> {
    if name in tree && tree[name].Dir? then tree[name].children else map[]
  }

  /** The plain files of a directory, by name. */
  function FilesOf(ch: map<string, Node>): (r: map<string, string>)
    ensures forall n :: n in r <==> n in ch && ch[n].File?
    ensures forall n <- r :: ch[n] == File(r[n])
  {
    map n | n in ch && ch[n].File? :: ch[n].content
  }

  /** The text of file `name` of a directory, if it is a file there. */
  function FileIn(ch: map<string, Node>, name: string): Option<string> {
    if name in ch && ch[name].File? then Some(ch[name].content) else None
  }

  /** One day as the revision log sees it: its entry file and its month's diff files. */
  function DayOf(entries: map<string, Node>, diffs: map<string, Node>, month: string, fn: string): Day {
    Day(FileIn(Sub(entries, month), fn), FilesOf(Sub(diffs, month)))
  }

  /** The diff files `os.listdir` shows for a month; `None` when that is not a directory. */
  function Listing(diffs: map<string, Node>, month: string): Option<map<string, string>> {
    if month in diffs && diffs[month].Dir? then Some(FilesOf(diffs[month].children)) else None
  }

  /**
    `os.makedirs(path)` for directory `name` of `tree`, with `edit_date`'s
    handling of its `OSError`: an existing directory is kept as it is, an
    existing file raises `InvalidDataDir`.
  */
  function MakeDirs(tree: map<string, Node>, name: string, path: string): (r: Result<map<string, Node>>)
    ensures r.Ok? <==> name !in tree || tree[name].Dir?
    ensures r.Err? ==> r.error == InvalidDataDir(path)
    ensures r.Ok? ==> name in r.value && r.value[name].Dir? && Sub(r.value, name) == Sub(tree, name)
    ensures r.Ok? ==> r.value - {name} == tree - {name}
  {
    if name !in tree then Ok(tree[name := Dir(map[])])
    else if tree[name].Dir? then Ok(tree)
    else Err(InvalidDataDir(path))
  }

  /** Names ending in `.tmp`: the backup of an entry, or a cached old version. */
  predicate IsTmpName(name: string) {
    EndsWith(name, ".tmp")
  }

  /** What `clean_tmp` leaves of a tree: every `.tmp` file is gone, at any depth. */
  function Cleaned(n: Node): Node {
    match n
    case File(_) => n
    case Dir(ch) => Dir(map k | k in ch && !(ch[k].File? && IsTmpName(k)) :: Cleaned(ch[k]))
  }

  /** The node at `path` below `n`, if there is one. */
  function Lookup(n: Node, path: seq<string>): Option<Node> {
    if path == [] then Some(n)
    else if n.Dir? && path[0] in n.children then Lookup(n.children[path[0]], path[1..])
    else None
  }

  /**
    After cleaning, a path leads somewhere exactly when it did before and
    does not name a `.tmp` file; files keep their text and directories stay.
  */
  lemma {:induction false} CleanedLookup(n: Node, path: seq<string>)
    ensures Lookup(Cleaned(n), path).Some? <==>
      Lookup(n, path).Some? && !(path != [] && Lookup(n, path).value.File? && IsTmpName(path[|path| - 1]))
    ensures Lookup(Cleaned(n), path).Some? ==> Lookup(Cleaned(n), path).value == Cleaned(Lookup(n, path).value)
    ensures Lookup(Cleaned(n), path).Some? ==> (Lookup(Cleaned(n), path).value.File? <==> Lookup(n, path).value.File?)
  {
    if path != [] && n.Dir? && path[0] in n.children {
      var k := path[0];
      var child := n.children[k];
      if child.File? && IsTmpName(k) {
        if |path| > 1 {
          assert Lookup(n, path) == None;
        }
      } else {
        assert Cleaned(n).children[k] == Cleaned(child);
        CleanedLookup(child, path[1..]);
        if path[1..] != [] {
          assert path[1..][|path[1..]| - 1] == path[|path| - 1];
        }
      }
    }
  }

  /** Cleaning twice is cleaning once. */
  lemma {:induction false} CleanedIdempotent(n: Node)
    ensures Cleaned(Cleaned(n)) == Cleaned(n)
  {
    match n
    case File(_) =>
    case Dir(ch) =>
      var once := Cleaned(n).children;
      forall k | k in once
        ensures Cleaned(once[k]) == once[k]
      {
        CleanedIdempotent(ch[k]);
      }
      assert Cleaned(Cleaned(n)).children == once;
  }

  /** Cleaning a directory keeps exactly its files whose names do not end in `.tmp`. */
  lemma CleanedFiles(ch: map<string, Node>)
    ensures var files, cleaned := FilesOf(ch), FilesOf(Cleaned(Dir(ch)).children);
      && (forall n :: n in cleaned <==> n in files && !IsTmpName(n))
      && (forall n <- cleaned :: cleaned[n] == files[n])
  {
  }

  /** Cleaning a month's diff directory drops only `.tmp` files, so the revision record survives it. */
  lemma CleanKeepsRecords(c: Codec, ch: map<string, Node>, day: string, hist: seq<Revision>)
    requires IsDayName(day)
    requires Records(c, FilesOf(ch), day, hist)
    ensures Records(c, FilesOf(Cleaned(Dir(ch)).children), day, hist)
  {
    var files := FilesOf(ch);
    var cleaned := FilesOf(Cleaned(Dir(ch)).children);
    CleanedFiles(ch);
    forall i | 0 <= i < |hist|
      ensures DiffName(day, hist[i].ts) in cleaned && cleaned[DiffName(day, hist[i].ts)] == files[DiffName(day, hist[i].ts)]
    {
      DiffNameParses(day, hist[i].ts);
    }
    assert Stored(c, cleaned, day, hist);
    assert OnlyThese(cleaned, day, hist);
  }

  /** A cached version is a `.tmp` file: writing it leaves the revision record as it was. */
  lemma CacheKeepsRecords(c: Codec, files: map<string, string>, day: string, hist: seq<Revision>, ts: int, text: string)
    requires IsDayName(day)
    requires Records(c, files, day, hist)
    ensures !IsEditFile(day, TmpName(day, ts))
    ensures Records(c, files[TmpName(day, ts) := text], day, hist)
  {
    var tmp := TmpName(day, ts);
    assert tmp[|tmp| - 4..] == ".tmp";
    forall i | 0 <= i < |hist|
      ensures DiffName(day, hist[i].ts) != tmp
    {
      DiffNameParses(day, hist[i].ts);
    }
  }

  class Journal {
    /** `get_diff` and `patch_apply`, the text-diff library the journal relies on. */
    const codec: Codec
    /** `conf['entries_dir']` and `conf['diffs_dir']`. */
    const entriesDir: string
    const diffsDir: string
    /** The contents of those two directories. */
    var entries: map<string, Node>
    var diffs: map<string, Node>

    constructor(codec: Codec, entriesDir: string, diffsDir: string, entries: map<string, Node>, diffs: map<string, Node>)
      ensures this.codec == codec && this.entriesDir == entriesDir && this.diffsDir == diffsDir
      ensures this.entries == entries && this.diffs == diffs
    {
      this.codec := codec;
      this.entriesDir := entriesDir;
      this.diffsDir := diffsDir;
      this.entries := entries;
      this.diffs := diffs;
    }

    /** Backs the entry `fn` of `month` up and lets the editor change it, as `BackupOutcome` says. */
    method BackupAndEdit(month: string, fn: string, after: Option<string>) returns (before: Option<string>, err: Option<Error>)
      requires month in entries && entries[month].Dir?
      modifies this
      ensures diffs == old(diffs)
      ensures before == FileIn(Sub(old(entries), month), fn)
      ensures var o := BackupOutcome(Sub(old(entries), month), PathJoin(entriesDir, month), fn, after);
        && (o.Err? ==> err == Some(o.error) && entries == old(entries))
        && (o.Ok? ==> err.None? && entries == old(entries)[month := Dir(o.value)])
    {
      var ch := entries[month].children;
      var monthDir := PathJoin(entriesDir, month);
      before := None;
      if fn in ch {
        if ch[fn].Dir? {
          return None, Some(IOError(PathJoin(monthDir, fn)));
        }
        var tmp := fn + ".tmp";
        before := Some(ch[fn].content);
        if tmp in ch && ch[tmp].Dir? {
          // the copy goes inside the directory, under the entry's own name
          var inner := ch[tmp].children;
          if fn in inner && inner[fn].Dir? {
            return before, Some(IOError(PathJoin(PathJoin(monthDir, tmp), fn)));
          }
          ch := ch[tmp := Dir(inner[fn := ch[fn]])];
        } else {
          ch := ch[tmp := ch[fn]];
        }
      }
      entries := entries[month := Dir(Edited(ch, fn, after))];
      err := None;
    }

    /**
      Stores the reverse patch of an edit at time `now` in the month's
      directories (`isNew`: the entry did not exist), as `StoreOutcome` says.
    */
    method StoreDiff(month: string, fn: string, now: nat, isNew: bool) returns (err: Option<Error>)
      requires month in entries && entries[month].Dir?
      requires month in diffs && diffs[month].Dir?
      modifies this
      ensures var o := StoreOutcome(codec, Sub(old(entries), month), Sub(old(diffs), month),
                                    PathJoin(entriesDir, month), PathJoin(diffsDir, month), fn, now, isNew);
        && (o.Err? ==> err == Some(o.error) && entries == old(entries) && diffs == old(diffs))
        && (o.Ok? ==> err.None? && entries == old(entries)[month := Dir(o.value.0)] && diffs == old(diffs)[month := Dir(o.value.1)])
    {
      var o := StoreOutcome(codec, entries[month].children, diffs[month].children,
                            PathJoin(entriesDir, month), PathJoin(diffsDir, month), fn, now, isNew);
      if o.Err? {
        return Some(o.error);
      }
      entries := entries[month := Dir(o.value.0)];
      diffs := diffs[month := Dir(o.value.1)];
      err := None;
    }

    /**
      `edit_date` of writelightly/edit.py at time `now`, the editor leaving
      `after`: both month directories are made first, then the entry is
      backed up, edited, and its reverse patch stored, as `EditOutcome`
      says. It succeeds exactly when the directories can be made, the backup
      is a file, `Record` has a next state and the diff file is not in the
      way; the day then changes exactly as `Record` says, the backup is
      removed, and no other entry and no other month is touched.
    */
    method EditDate(date: Date, now: nat, after: Option<string>) returns (err: Option<Error>)
      requires ValidDate(date)
      modifies this
      ensures date.year < 1900 ==> err == Some(ValueError) && entries == old(entries) && diffs == old(diffs)
      ensures date.year >= 1900 ==>
        var month, fn := MonthName(date).value, DayName(date);
        var ch0, dch0 := Sub(old(entries), month), Sub(old(diffs), month);
        var dirs := MakeDirs(old(entries), month, "").Ok? && MakeDirs(old(diffs), month, "").Ok?;
        var r := EditOutcome(codec, ch0, dch0, PathJoin(entriesDir, month), PathJoin(diffsDir, month), fn, now, after);
        && entries - {month} == old(entries) - {month}
        && diffs - {month} == old(diffs) - {month}
        && (month in old(entries) && old(entries)[month].File? ==>
              err == Some(InvalidDataDir(PathJoin(entriesDir, month))) && entries == old(entries) && diffs == old(diffs))
        && (MakeDirs(old(entries), month, "").Ok? && month in old(diffs) && old(diffs)[month].File? ==>
              err == Some(InvalidDataDir(PathJoin(diffsDir, month))) && diffs == old(diffs) && Sub(entries, month) == ch0)
        && (dirs ==> err == r.0 && Sub(entries, month) == r.1 && Sub(diffs, month) == r.2)
        && (err.None? <==> dirs && !BackupFails(ch0, fn) && !BackupInDir(ch0, fn)
                           && Record(codec, Day(FileIn(ch0, fn), FilesOf(dch0)), fn, now, after).Some?
                           && !DiffBlocked(codec, dch0, fn, now, FileIn(ch0, fn), after))
        && (err.None? ==> Record(codec, DayOf(old(entries), old(diffs), month, fn), fn, now, after)
                           == Some(DayOf(entries, diffs, month, fn)))
        && (err.None? ==> Sub(entries, month) - {fn, fn + ".tmp"} == ch0 - {fn, fn + ".tmp"})
        && (err.None? && FileIn(ch0, fn).Some? ==> fn + ".tmp" !in Sub(entries, month))
    {
      var mr := MonthName(date);
      if mr.Err? {
        return Some(mr.error);
      }
      var month := mr.value;
      var e := MakeDirs(entries, month, PathJoin(entriesDir, month));
      if e.Err? {
        return Some(e.error);
      }
      entries := e.value;
      var d := MakeDirs(diffs, month, PathJoin(diffsDir, month));
      if d.Err? {
        return Some(d.error);
      }
      diffs := d.value;
      err := EditMonth(month, DayName(date), now, after);
    }

    /**
      `edit_date` of the older edit.py: the diff directory is made only
      after the editor has run, so an invalid diff directory is reported
      with the entry already edited and its backup in place. Where both
      directories can be made it does what `EditDate` does.
    */
    method EditDateLegacy(date: Date, now: nat, after: Option<string>) returns (err: Option<Error>)
      requires ValidDate(date)
      modifies this
      ensures date.year < 1900 ==> err == Some(ValueError) && entries == old(entries) && diffs == old(diffs)
      ensures date.year >= 1900 ==>
        var month, fn := MonthName(date).value, DayName(date);
        var ch0, dch0 := Sub(old(entries), month), Sub(old(diffs), month);
        var dirs := MakeDirs(old(entries), month, "").Ok? && MakeDirs(old(diffs), month, "").Ok?;
        var b := BackupOutcome(ch0, PathJoin(entriesDir, month), fn, after);
        var r := EditOutcome(codec, ch0, dch0, PathJoin(entriesDir, month), PathJoin(diffsDir, month), fn, now, after);
        && entries - {month} == old(entries) - {month}
        && diffs - {month} == old(diffs) - {month}
        && (month in old(entries) && old(entries)[month].File? ==>
              err == Some(InvalidDataDir(PathJoin(entriesDir, month))) && entries == old(entries) && diffs == old(diffs))
        && (MakeDirs(old(entries), month, "").Ok? && b.Ok? && month in old(diffs) && old(diffs)[month].File? ==>
              err == Some(InvalidDataDir(PathJoin(diffsDir, month))) && Sub(entries, month) == b.value && diffs == old(diffs))
        && (dirs ==> err == r.0 && Sub(entries, month) == r.1 && Sub(diffs, month) == r.2)
        && (err.None? <==> dirs && r.0.None?)
        && (err.None? ==> Record(codec, DayOf(old(entries), old(diffs), month, fn), fn, now, after)
                           == Some(DayOf(entries, diffs, month, fn)))
        && (err.None? ==> Sub(entries, month) - {fn, fn + ".tmp"} == ch0 - {fn, fn + ".tmp"})
        && (err.None? && FileIn(ch0, fn).Some? ==> fn + ".tmp" !in Sub(entries, month))
    {
      var mr := MonthName(date);
      if mr.Err? {
        return Some(mr.error);
      }
      var month := mr.value;
      var fn := DayName(date);
      var e := MakeDirs(entries, month, PathJoin(entriesDir, month));
      if e.Err? {
        return Some(e.error);
      }
      entries := e.value;
      err := EditMonthLegacy(month, fn, now, after);
    }

    /** `os.makedirs` of the month's diff directory. */
    method MakeDiffDir(month: string) returns (err: Option<Error>)
      modifies this
      ensures entries == old(entries)
      ensures err.None? <==> MakeDirs(old(diffs), month, "").Ok?
      ensures err.None? ==> diffs == MakeDirs(old(diffs), month, "").value
      ensures err.Some? ==> err == Some(InvalidDataDir(PathJoin(diffsDir, month))) && diffs == old(diffs)
    {
      var d := MakeDirs(diffs, month, PathJoin(diffsDir, month));
      if d.Err? {
        return Some(d.error);
      }
      diffs := d.value;
      err := None;
    }

    /** The backup, edit, making of the diff directory and diff of the older `edit_date`. */
    method EditMonthLegacy(month: string, fn: string, now: nat, after: Option<string>) returns (err: Option<Error>)
      requires month in entries && entries[month].Dir?
      modifies this
      ensures entries - {month} == old(entries) - {month}
      ensures diffs - {month} == old(diffs) - {month}
      ensures month in entries && entries[month].Dir?
      ensures var ch0, dch0 := Sub(old(entries), month), Sub(old(diffs), month);
        var b := BackupOutcome(ch0, PathJoin(entriesDir, month), fn, after);
        var r := EditOutcome(codec, ch0, dch0, PathJoin(entriesDir, month), PathJoin(diffsDir, month), fn, now, after);
        && (b.Err? ==> err == Some(b.error) && entries == old(entries) && diffs == old(diffs))
        && (b.Ok? && MakeDirs(old(diffs), month, "").Err? ==>
              err == Some(InvalidDataDir(PathJoin(diffsDir, month))) && Sub(entries, month) == b.value && diffs == old(diffs))
        && (MakeDirs(old(diffs), month, "").Ok? ==> err == r.0 && Sub(entries, month) == r.1 && Sub(diffs, month) == r.2)
        && (err.None? <==> MakeDirs(old(diffs), month, "").Ok? && r.0.None?)
        && (err.None? ==> Record(codec, Day(FileIn(ch0, fn), FilesOf(dch0)), fn, now, after) == Some(DayOf(entries, diffs, month, fn)))
        && (err.None? ==> Sub(entries, month) - {fn, fn + ".tmp"} == ch0 - {fn, fn + ".tmp"})
        && (err.None? && FileIn(ch0, fn).Some? ==> fn + ".tmp" !in Sub(entries, month))
    {
      ghost var e0, d0 := entries, diffs;
      ghost var ch0, dch0 := Sub(entries, month), Sub(diffs, month);
      ghost var entryDir, diffDir := PathJoin(entriesDir, month), PathJoin(diffsDir, month);
      EditOutcomeFacts(codec, ch0, dch0, entryDir, diffDir, fn, now, after);
      var before;
      before, err := EditThenMakeDiffDir(month, fn, after);
      if !BackupFails(ch0, fn) {
        UpdateMinus(e0, month, entries[month]);
      }
      if err.Some? {
        return;
      }
      UpdateMinus(d0, month, diffs[month]);
      ghost var e1, d1 := entries, diffs;
      err := StoreDiff(month, fn, now, before.None?);
      if err.None? {
        UpdateMinus(e1, month, entries[month]);
        UpdateMinus(d1, month, diffs[month]);
      }
    }

    /** The first half of the older `edit_date`: backup and edit, then the diff directory. */
    method EditThenMakeDiffDir(month: string, fn: string, after: Option<string>) returns (before: Option<string>, err: Option<Error>)
      requires month in entries && entries[month].Dir?
      modifies this
      ensures before == FileIn(Sub(old(entries), month), fn)
      ensures var o := BackupOutcome(Sub(old(entries), month), PathJoin(entriesDir, month), fn, after);
        && (o.Err? ==> err == Some(o.error) && entries == old(entries) && diffs == old(diffs))
        && (o.Ok? ==> entries == old(entries)[month := Dir(o.value)])
        && (o.Ok? ==> (err.None? <==> MakeDirs(old(diffs), month, "").Ok?))
        && (o.Ok? && err.None? ==> diffs == MakeDirs(old(diffs), month, "").value)
        && (o.Ok? && err.Some? ==> err == Some(InvalidDataDir(PathJoin(diffsDir, month))) && diffs == old(diffs))
    {
      before, err := BackupAndEdit(month, fn, after);
      if err.Some? {
        return;
      }
      err := MakeDiffDir(month);
    }

    /**
      The backup, edit and diff of `edit_date` once both month directories
      exist: the month changes as `EditOutcome` says, so on success the day
      changes as `Record` says, the backup is removed and the month's other
      entries stay.
    */
    method EditMonth(month: string, fn: string, now: nat, after: Option<string>) returns (err: Option<Error>)
      requires month in entries && entries[month].Dir?
      requires month in diffs && diffs[month].Dir?
      modifies this
      ensures entries - {month} == old(entries) - {month}
      ensures diffs - {month} == old(diffs) - {month}
      ensures month in entries && entries[month].Dir? && month in diffs && diffs[month].Dir?
      ensures var ch0, dch0 := Sub(old(entries), month), Sub(old(diffs), month);
        var r := EditOutcome(codec, ch0, dch0, PathJoin(entriesDir, month), PathJoin(diffsDir, month), fn, now, after);
        && err == r.0 && Sub(entries, month) == r.1 && Sub(diffs, month) == r.2
        && (Record(codec, Day(FileIn(ch0, fn), FilesOf(dch0)), fn, now, after).None? ==> err.Some?)
        && (err.None? ==> Record(codec, Day(FileIn(ch0, fn), FilesOf(dch0)), fn, now, after) == Some(DayOf(entries, diffs, month, fn)))
        && (err.None? ==> Sub(entries, month) - {fn, fn + ".tmp"} == ch0 - {fn, fn + ".tmp"})
        && (err.None? && FileIn(ch0, fn).Some? ==> fn + ".tmp" !in Sub(entries, month))
    {
      ghost var e0, d0 := entries, diffs;
      ghost var ch0, dch0 := Sub(entries, month), Sub(diffs, month);
      ghost var entryDir, diffDir := PathJoin(entriesDir, month), PathJoin(diffsDir, month);
      EditOutcomeFacts(codec, ch0, dch0, entryDir, diffDir, fn, now, after);
      var before;
      before, err := BackupAndEdit(month, fn, after);
      if err.Some? {
        return;
      }
      UpdateMinus(e0, month, entries[month]);
      ghost var e1 := entries;
      err := StoreDiff(month, fn, now, before.None?);
      if err.None? {
        UpdateMinus(e1, month, entries[month]);
        UpdateMinus(d0, month, diffs[month]);
      }
    }

    /**
      `save_tmp_version`: the text of the entry right after edit `index`,
      cached in `<dd>_<ts>.tmp` of the month's diff directory, whose path
      is returned. An existing cache file is returned as it is; otherwise
      the patches of the later edits are applied to the current entry,
      newest first, exactly as `Rebuild` says.
    */
    method SaveTmpVersion(date: Date, edits: seq<Edit>, index: nat) returns (r: Result<string>)
      requires ValidDate(date) && index < |edits|
      modifies this
      ensures entries == old(entries)
      ensures date.year < 1900 ==> r == Err(ValueError) && diffs == old(diffs)
      ensures date.year >= 1900 ==>
        var month := MonthName(date).value;
        var fn := DayName(date);
        var diffDir := PathJoin(diffsDir, month);
        var tmpName := TmpName(fn, edits[index].ts);
        var tmp := PathJoin(diffDir, tmpName);
        var current := FileIn(Sub(entries, month), fn);
        var dch := Sub(old(diffs), month);
        && (tmpName in dch ==> r == Ok(tmp) && diffs == old(diffs))
        && (tmpName !in dch && current.None? ==> r == Err(IOError(PathJoin(PathJoin(entriesDir, month), fn))) && diffs == old(diffs))
        && (tmpName !in dch && current.Some? ==>
              match Rebuild(codec, FilesOf(dch), diffDir, fn, current.value, edits, index)
              case Err(e) => r == Err(e) && diffs == old(diffs)
              case Ok(text) =>
                if month in old(diffs) && old(diffs)[month].Dir? then
                  r == Ok(tmp) && diffs == old(diffs)[month := Dir(dch[tmpName := File(text)])]
                else r == Err(IOError(tmp)) && diffs == old(diffs))
    {
      var mr := MonthName(date);
      if mr.Err? {
        return Err(mr.error);
      }
      var month := mr.value;
      var diffDir := PathJoin(diffsDir, month);
      var fn := DayName(date);
      var tmpName := TmpName(fn, edits[index].ts);
      var tmp := PathJoin(diffDir, tmpName);
      var dch := Sub(diffs, month);
      if tmpName in dch {
        return Ok(tmp);
      }
      var current := FileIn(Sub(entries, month), fn);
      if current.None? {
        return Err(IOError(PathJoin(PathJoin(entriesDir, month), fn)));
      }
      var rebuilt := ApplyPending(codec, FilesOf(dch), diffDir, fn, current.value, Pending(edits, index));
      if rebuilt.Err? {
        return rebuilt;
      }
      var text := rebuilt.value;
      if !(month in diffs && diffs[month].Dir?) {
        return Err(IOError(tmp));
      }
      diffs := diffs[month := Dir(dch[tmpName := File(text)])];
      r := Ok(tmp);
    }

    /** `clean_tmp` on the diffs directory: every `.tmp` file below it is removed. */
    method CleanTmp()
      modifies this
      ensures entries == old(entries)
      ensures diffs == Cleaned(Dir(old(diffs))).children
    {
      diffs := CleanDir(diffs);
    }
  }
  /**
    The loop of `save_tmp_version`: the patch of each pending edit is
    applied to `text` in turn; a missing diff file raises `IOError`.
  */
  method ApplyPending(c: Codec, files: map<string, string>, diffDir: string, fn: string, text: string, pending: seq<Edit>)
    returns (r: Result<string>)
    ensures r == ApplyPatches(c, files, diffDir, fn, text, pending)
  {
    var t := text;
    var i := 0;
    while i < |pending|
      invariant 0 <= i <= |pending|
      invariant ApplyPatches(c, files, diffDir, fn, t, pending[i..]) == ApplyPatches(c, files, diffDir, fn, text, pending)
    {
      var name := DiffName(fn, pending[i].ts);
      if name !in files {
        return Err(IOError(PathJoin(diffDir, name)));
      }
      t := c.apply(files[name], t);
      i := i + 1;
    }
    return Ok(t);
  }


  /**
    `clean_tmp(d)` for a directory with entries `ch`, listed in any order:
    sub-directories are cleaned in turn and `.tmp` files removed.
  */
  method CleanDir(ch: map<string, Node>) returns (r: map<string, Node>)
    ensures Dir(r) == Cleaned(Dir(ch))
    decreases Dir(ch)
  {
    var todo := ch.Keys;
    r := ch;
    while todo != {}
      invariant todo <= ch.Keys
      invariant forall k :: k in r <==> k in ch && (k in todo || !(ch[k].File? && IsTmpName(k)))
      invariant forall k <- r :: r[k] == if k in todo then ch[k] else Cleaned(ch[k])
      decreases |todo|
    {
      var k :| k in todo;
      match ch[k] {
        case Dir(sub) =>
          assert Dir(sub) < Dir(ch);
          var c := CleanDir(sub);
          r := r[k := Dir(c)];
        case File(_) =>
          if IsTmpName(k) {
            r := r - {k};
          }
      }
      todo := todo - {k};
    }
    assert r == Cleaned(Dir(ch)).children;
  }

  /**
    Storing the reverse patch of an edit at time `now`, with `ch` and `dch`
    the month's entry and diff directories (at `entryDir` and `diffDir`):
    an empty diff file for a new entry; otherwise the entry and then its
    backup `fn.tmp` are read, the patch from the edited text back to the
    backup's is written only when it is not empty, and the backup is
    removed. Reading an entry the editor removed, or a backup that is not a
    file, fails, and so does writing a diff file whose name is a directory.
  */
  function StoreOutcome(c: Codec, ch: map<string, Node>, dch: map<string, Node>, entryDir: string, diffDir: string,
                        fn: string, now: nat, isNew: bool): (r: Result<(map<string, Node>, map<string, Node>)>)
    ensures r.Ok? ==> r.value.0 == if isNew then ch else ch - {fn + ".tmp"}
    ensures r.Ok? ==> r.value.1 - {DiffName(fn, now)} == dch - {DiffName(fn, now)}
  {
    var name := DiffName(fn, now);
    if isNew then
      if name in dch && dch[name].Dir? then Err(IOError(PathJoin(diffDir, name)))
      else Ok((ch, dch[name := File("")]))
    else
      match FileIn(ch, fn)
      case None => Err(IOError(PathJoin(entryDir, fn)))
      case Some(after) =>
        match FileIn(ch, fn + ".tmp")
        case None => Err(IOError(PathJoin(entryDir, fn + ".tmp")))
        case Some(before) =>
          var patch := c.diff(after, before);
          if patch != "" && name in dch && dch[name].Dir? then Err(IOError(PathJoin(diffDir, name)))
          else Ok((ch - {fn + ".tmp"}, if patch != "" then dch[name := File(patch)] else dch))
  }

  /**
    The outcome fails exactly when the edited entry is gone, the backup
    cannot be read, or the diff file to write is a directory, and names the
    first of these; otherwise the diff files gain the patch, which is written
    unless it is empty for an existing entry.
  */
  lemma StoreOutcomeCases(c: Codec, ch: map<string, Node>, dch: map<string, Node>, entryDir: string, diffDir: string,
                          fn: string, now: nat, isNew: bool)
    ensures var r := StoreOutcome(c, ch, dch, entryDir, diffDir, fn, now, isNew);
      var name := DiffName(fn, now);
      var after, backup := FileIn(ch, fn), FileIn(ch, fn + ".tmp");
      var unread := !isNew && (after.None? || backup.None?);
      var patch := if isNew || unread then "" else c.diff(after.value, backup.value);
      var writes := isNew || (!unread && patch != "");
      && (r.Err? <==> unread || (writes && name in dch && dch[name].Dir?))
      && (r.Err? ==> r.error == IOError(if !isNew && after.None? then PathJoin(entryDir, fn)
                                        else if unread then PathJoin(entryDir, fn + ".tmp")
                                        else PathJoin(diffDir, name)))
      && (r.Ok? ==> FilesOf(r.value.1) == if writes then FilesOf(dch)[name := patch] else FilesOf(dch))
  {
    var name := DiffName(fn, now);
    var r := StoreOutcome(c, ch, dch, entryDir, diffDir, fn, now, isNew);
    if r.Ok? && (isNew || c.diff(FileIn(ch, fn).value, FileIn(ch, fn + ".tmp").value) != "") {
      var patch := if isNew then "" else c.diff(FileIn(ch, fn).value, FileIn(ch, fn + ".tmp").value);
      assert r.value.1 == dch[name := File(patch)];
      assert FilesOf(r.value.1) == FilesOf(dch)[name := patch];
    }
  }

  /** Replacing the node of `k` changes nothing else. */
  lemma UpdateMinus(m: map<string, Node>, k: string, v: Node)
    ensures m[k := v] - {k} == m - {k}
  {
  }

  /**
    The entry `fn` is a file and its backup name `fn.tmp` a directory:
    `shutil.copy` then copies the entry into that directory, as `fn.tmp/fn`.
  */
  predicate BackupInDir(ch: map<string, Node>, fn: string) {
    FileIn(ch, fn).Some? && fn + ".tmp" in ch && ch[fn + ".tmp"].Dir?
  }

  /**
    `shutil.copy` cannot make the backup: the entry is a directory, or the
    copy would go into `fn.tmp/fn` and that is a directory.
  */
  predicate BackupFails(ch: map<string, Node>, fn: string) {
    || (fn in ch && ch[fn].Dir?)
    || (BackupInDir(ch, fn) && fn in ch[fn + ".tmp"].children && ch[fn + ".tmp"].children[fn].Dir?)
  }

  /** The directory after the editor left `after` in file `name` (`None`: no file). */
  function Edited(ch: map<string, Node>, name: string, after: Option<string>): (r: map<string, Node>)
    ensures FileIn(r, name) == after
    ensures r - {name} == ch - {name}
  {
    if after.Some? then ch[name := File(after.value)] else ch - {name}
  }

  /**
    Backing the entry `fn` of a month directory (at `monthDir`) up with
    `shutil.copy(path, path + '.tmp')` when it exists: the copy replaces a
    file `fn.tmp` and goes inside a directory `fn.tmp`; copying from a
    directory, or onto one, fails. Then the editor leaves `after` in the
    entry's place (`None`: the editor removed the file).
  */
  function BackupOutcome(ch: map<string, Node>, monthDir: string, fn: string, after: Option<string>): Result<map<string, Node>> {
    var tmp := fn + ".tmp";
    if fn !in ch then Ok(Edited(ch, fn, after))
    else match ch[fn]
      case Dir(_) => Err(IOError(PathJoin(monthDir, fn)))
      case File(_) =>
        if tmp in ch && ch[tmp].Dir? then
          var inner := ch[tmp].children;
          if fn in inner && inner[fn].Dir? then Err(IOError(PathJoin(PathJoin(monthDir, tmp), fn)))
          else Ok(Edited(ch[tmp := Dir(inner[fn := ch[fn]])], fn, after))
        else Ok(Edited(ch[tmp := ch[fn]], fn, after))
  }

  /**
    The backup fails exactly when `BackupFails` says, naming the directory
    in the way; otherwise the entry holds `after`, the backup (a file, or a
    copy inside the directory `fn.tmp`) the old text, and nothing else in
    the directory changes.
  */
  lemma BackupOutcomeCases(ch: map<string, Node>, monthDir: string, fn: string, after: Option<string>)
    ensures var r := BackupOutcome(ch, monthDir, fn, after);
      var tmp := fn + ".tmp";
      && (r.Err? <==> BackupFails(ch, fn))
      && (r.Err? ==> r.error == IOError(if fn in ch && ch[fn].Dir? then PathJoin(monthDir, fn) else PathJoin(PathJoin(monthDir, tmp), fn)))
      && (r.Ok? ==> FileIn(r.value, fn) == after)
      && (r.Ok? && FileIn(ch, fn).Some? && !BackupInDir(ch, fn) ==> FileIn(r.value, tmp) == FileIn(ch, fn))
      && (r.Ok? && BackupInDir(ch, fn) ==> tmp in r.value && r.value[tmp] == Dir(ch[tmp].children[fn := ch[fn]]))
      && (r.Ok? && FileIn(ch, fn).None? ==> r.value - {fn} == ch - {fn})
      && (r.Ok? ==> r.value - {fn, tmp} == ch - {fn, tmp})
  {
    var tmp := fn + ".tmp";
    assert tmp != fn by {
      assert |tmp| > |fn|;
    }
  }

  /**
    The diff file an edit writes is in the way as a directory: the edit
    writes one for a new entry, and for an existing one when the patch is
    not empty.
  */
  predicate DiffBlocked(c: Codec, dch: map<string, Node>, fn: string, now: nat, before: Option<string>, after: Option<string>) {
    var name := DiffName(fn, now);
    && name in dch && dch[name].Dir?
    && (before.None? || (after.Some? && c.diff(after.value, before.value) != ""))
  }

  /**
    `edit_date` once both month directories exist, from entry directory
    `ch` and diff directory `dch`: the error it raises, if any, and the two
    directories as it leaves them. A failed backup changes nothing; a
    failure to store the patch leaves the edited entry and its backup.
  */
  function EditOutcome(c: Codec, ch: map<string, Node>, dch: map<string, Node>, entryDir: string, diffDir: string,
                       fn: string, now: nat, after: Option<string>): (Option<Error>, map<string, Node>, map<string, Node>) {
    match BackupOutcome(ch, entryDir, fn, after)
    case Err(e) => (Some(e), ch, dch)
    case Ok(b) =>
      match StoreOutcome(c, b, dch, entryDir, diffDir, fn, now, FileIn(ch, fn).None?)
      case Err(e) => (Some(e), b, dch)
      case Ok(o) => (None, o.0, o.1)
  }

  /**
    What `edit_date` promises of a month: it succeeds exactly when the
    backup can be made as a file, `Record` has a next state and the diff
    file is not in the way; the day then changes as `Record` says, the
    backup is gone and nothing else in the month changes. A failure stores
    no diff; once the backup is made, the editor's text stays, and a backup
    directory fails the read of the backup after the edit.
  */
  lemma EditOutcomeFacts(c: Codec, ch: map<string, Node>, dch: map<string, Node>, entryDir: string, diffDir: string,
                         fn: string, now: nat, after: Option<string>)
    ensures var r := EditOutcome(c, ch, dch, entryDir, diffDir, fn, now, after);
      var tmp := fn + ".tmp";
      var day := Day(FileIn(ch, fn), FilesOf(dch));
      && (r.0.None? <==> !BackupFails(ch, fn) && !BackupInDir(ch, fn) && Record(c, day, fn, now, after).Some?
                         && !DiffBlocked(c, dch, fn, now, FileIn(ch, fn), after))
      && (r.0.None? ==> Record(c, day, fn, now, after) == Some(Day(FileIn(r.1, fn), FilesOf(r.2))))
      && (r.0.None? ==> r.1 - {fn, tmp} == ch - {fn, tmp})
      && (r.0.None? && FileIn(ch, fn).Some? ==> tmp !in r.1)
      && (r.0.None? && FileIn(ch, fn).None? ==> r.1 - {fn} == ch - {fn})
      && (r.0.None? ==> r.2 - {DiffName(fn, now)} == dch - {DiffName(fn, now)})
      && (r.0.Some? ==> r.2 == dch)
      && (BackupFails(ch, fn) ==> r.1 == ch && r.0 == Some(IOError(
            if fn in ch && ch[fn].Dir? then PathJoin(entryDir, fn) else PathJoin(PathJoin(entryDir, tmp), fn))))
      && (!BackupFails(ch, fn) ==> FileIn(r.1, fn) == after)
      && (!BackupFails(ch, fn) && BackupInDir(ch, fn) ==>
            r.0 == Some(IOError(PathJoin(entryDir, if after.None? then fn else tmp)))
            && r.1 == Edited(ch[tmp := Dir(ch[tmp].children[fn := ch[fn]])], fn, after))
  {
    var tmp := fn + ".tmp";
    assert tmp != fn by {
      assert |tmp| > |fn|;
    }
    BackupOutcomeCases(ch, entryDir, fn, after);
    var b := BackupOutcome(ch, entryDir, fn, after);
    if b.Ok? {
      var isNew := FileIn(ch, fn).None?;
      StoreOutcomeCases(c, b.value, dch, entryDir, diffDir, fn, now, isNew);
      if BackupInDir(ch, fn) {
        assert FileIn(b.value, tmp).None?;
      }
    }
  }
}

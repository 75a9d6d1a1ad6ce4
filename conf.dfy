// The configuration (writelightly/conf.py and its older copy conf.py):
// built-in defaults, a `<section>_keys` section for every group of key
// bindings, the user's settings on top, and the directories derived from
// the data directory.

module Config {
  import opened Wrappers
  import opened Strings

  /** A setting: a string, a flag, or a list of key names. */
  datatype Value = Str(s: string) | Flag(b: bool) | KeyList(names: seq<string>)

  type Section = map<string, Value>

  type Settings = map<string, Section>

  /** One `param = value` line of the user's file, under its `[section]`. */
  datatype Setting = Setting(section: string, param: string, value: string)

  // ---------------------------------------------------------------------
  // _process_value

  /**
    `_process_value`: in a key section the value is a whitespace-separated
    list of key names; elsewhere `yes` and `no` are flags and anything else
    is kept as written.
  */
  function ProcessValue(section: string, value: string): (r: Value)
    ensures EndsWith(section, "_keys") ==> r.KeyList? && forall w <- r.names :: w != [] && forall c <- w :: !IsSpace(c)
    ensures !EndsWith(section, "_keys") ==> !r.KeyList?
    ensures r.Flag? <==> !EndsWith(section, "_keys") && (value == "yes" || value == "no")
    ensures r.Flag? ==> (r.b <==> value == "yes")
    ensures r.Str? ==> r.s == value
  {
    if EndsWith(section, "_keys") then KeyList(Words(value))
    else if value == "yes" || value == "no" then Flag(value == "yes")
    else Str(value)
  }

  /** Splitting at whitespace a string that starts with a separator puts an empty field first. */
  lemma {:induction false} SplitAtSpace(a: string, c: char, b: string)
    requires IsSpace(c) && forall x <- a :: !IsSpace(x)
    ensures SplitFields(a + [c] + b, None) == [a] + SplitFields(b, None)
    decreases |a|
  {
    var s := a + [c] + b;
    if |a| == 0 {
      assert s[1..] == b;
    } else {
      assert s[1..] == a[1..] + [c] + b;
      SplitAtSpace(a[1..], c, b);
      assert [a[0]] + a[1..] == a;
    }
  }

  /** A word without whitespace is one field. */
  lemma {:induction false} SplitWord(a: string)
    requires forall x <- a :: !IsSpace(x)
    ensures SplitFields(a, None) == [a]
    decreases |a|
  {
    if |a| > 0 {
      SplitWord(a[1..]);
      assert [a[0]] + a[1..] == a;
    }
  }

  /** Joining words with a blank and splitting at whitespace gives the words back. */
  lemma {:induction false} SplitJoinWords(ws: seq<string>)
    requires |ws| > 0 && forall w <- ws :: forall x <- w :: !IsSpace(x)
    ensures SplitFields(Join(ws, " "), None) == ws
    decreases |ws|
  {
    assert ws[0] in ws;
    if |ws| == 1 {
      SplitWord(ws[0]);
    } else {
      assert forall w <- ws[1..] :: w in ws;
      SplitJoinWords(ws[1..]);
      assert Join(ws, " ") == ws[0] + [' '] + Join(ws[1..], " ");
      SplitAtSpace(ws[0], ' ', Join(ws[1..], " "));
      assert ws == [ws[0]] + ws[1..];
    }
  }

  lemma {:induction false} NonEmptyAll(fields: seq<string>)
    requires forall f <- fields :: f != []
    ensures NonEmpty(fields) == fields
    decreases |fields|
  {
    if |fields| > 0 {
      assert fields[0] in fields;
      assert forall f <- fields[1..] :: f in fields;
      NonEmptyAll(fields[1..]);
      assert fields == [fields[0]] + fields[1..];
    }
  }

  /**
    A list of key names written on one line, separated by blanks, reads
    back as that list; a flag written as `yes` or `no` reads back as itself.
  */
  lemma ProcessValueRoundTrip(section: string, ws: seq<string>, b: bool)
    requires forall w <- ws :: w != [] && forall x <- w :: !IsSpace(x)
    ensures EndsWith(section, "_keys") ==> ProcessValue(section, Join(ws, " ")) == KeyList(ws)
    ensures !EndsWith(section, "_keys") ==> ProcessValue(section, if b then "yes" else "no") == Flag(b)
  {
    if ws == [] {
      assert Words("") == [];
    } else {
      SplitJoinWords(ws);
      NonEmptyAll(ws);
    }
  }

  // ---------------------------------------------------------------------
  // Defaults

  /** `os.path.join(home_dir, '.wl')` */
  function DataDir(home: string): string {
    PathJoin(home, ".wl")
  }

  /** `os.environ.get(name, default)` */
  function EnvGet(env: map<string, string>, name: string, default: string): string {
    if name in env then env[name] else default
  }

  /** `default_config`: the general section. */
  function DefaultConfig(home: string, env: map<string, string>): Settings {
    map["general" := map[
      "data_dir" := Str(DataDir(home)),
      "editor" := Str(EnvGet(env, "EDITOR", EnvGet(env, "VISUAL", "vim"))),
      "tags_label" := Str("TAGS:"),
      "color" := Flag(true)]]
  }

  /** The calendar's default key bindings, the same in both copies. */
  const CalendarKeys: Section := map[
    "left" := KeyList(["h", "KEY_LEFT"]),
    "right" := KeyList(["l", "KEY_RIGHT"]),
    "down" := KeyList(["j", "KEY_DOWN"]),
    "up" := KeyList(["k", "KEY_UP"]),
    "edit" := KeyList(["e", "^J"]),
    "tags" := KeyList(["t"]),
    "edits" := KeyList(["d"]),
    "next_month" := KeyList(["L"]),
    "prev_month" := KeyList(["H"])]

  /** The lists' default key bindings, the same in both copies. */
  const ListKeys: Section := map[
    "down" := KeyList(["j", "KEY_DOWN"]),
    "up" := KeyList(["k", "KEY_UP"]),
    "scroll_down" := KeyList(["^E"]),
    "scroll_up" := KeyList(["^Y"]),
    "page_down" := KeyList(["^F", "KEY_NPAGE"]),
    "page_up" := KeyList(["^B", "KEY_PPAGE"]),
    "halfpage_down" := KeyList(["^D"]),
    "halfpage_up" := KeyList(["^U"]),
    "top" := KeyList(["g", "KEY_HOME"]),
    "bottom" := KeyList(["G", "KEY_END"]),
    "search" := KeyList(["/"]),
    "find_next" := KeyList(["n"]),
    "find_prev" := KeyList(["N"])]

  /** `default_keys` */
  const DefaultKeys: Settings := map[
    "general" := map["quit_mode" := Str("q"), "quit" := Str("Q")],
    "calendar" := CalendarKeys,
    "tags" := map["details" := KeyList(["^J"])],
    "tag_details" := map["edit" := KeyList(["e", "^J"]), "edits" := KeyList(["d"])],
    "list" := ListKeys,
    "edits" := map["open" := KeyList(["^J", "o"])]]

  /** `default_config` of `conf.py`: the directories are fixed below the built-in data directory. */
  function LegacyDefaultConfig(home: string, env: map<string, string>): Settings {
    map["general" := map[
      "data_dir" := Str(DataDir(home)),
      "entries_dir" := Str(PathJoin(DataDir(home), "entries")),
      "diffs_dir" := Str(PathJoin(DataDir(home), "diffs")),
      "metadata_dir" := Str(PathJoin(DataDir(home), "metadata")),
      "editor" := Str(EnvGet(env, "EDITOR", "vim")),
      "tags_label" := Str("TAGS:"),
      "color" := Flag(true)]]
  }

  /** `default_keys` of `conf.py`: no general and no edits bindings. */
  const LegacyDefaultKeys: Settings := map[
    "calendar" := CalendarKeys,
    "tags" := map["details" := KeyList(["^J"])],
    "tag_details" := map["edit" := KeyList(["e", "^J"]), "edits" := KeyList(["d"])],
    "list" := ListKeys]

  // ---------------------------------------------------------------------
  // Building the configuration

  /** `'%s_keys' % section` */
  function KeyName(section: string): (r: string)
    ensures |r| == |section| + 5 && r[..|section|] == section
  {
    var r := section + "_keys";
    assert r[..|section|] == section;
    r
  }

  /** Different sections have different key sections. */
  lemma KeyNameInjective(a: string, b: string)
    requires KeyName(a) == KeyName(b)
    ensures a == b
  {
    assert a == KeyName(a)[..|a|] && b == KeyName(b)[..|b|];
  }

  /** The key sections of the sections in `done`, each under its `_keys` name. */
  function KeySections(keys: Settings, done: set<string>): Settings {
    map k | k in done && k in keys :: KeyName(k) := keys[k]
  }

  /** Adding one section's keys. */
  lemma KeySectionsAdd(keys: Settings, done: set<string>, k: string)
    requires k in keys && k !in done
    ensures KeySections(keys, done + {k}) == KeySections(keys, done)[KeyName(k) := keys[k]]
  {
    var a := KeySections(keys, done + {k});
    var b := KeySections(keys, done)[KeyName(k) := keys[k]];
    KeySectionsAddOld(keys, done, k);
    KeySectionsAddNew(keys, done, k);
    assert a.Keys == b.Keys;
  }

  /** Every key section after the addition is there beforehand or is the new one. */
  lemma KeySectionsAddOld(keys: Settings, done: set<string>, k: string)
    requires k in keys && k !in done
    ensures var a := KeySections(keys, done + {k}); var b := KeySections(keys, done)[KeyName(k) := keys[k]];
      forall s | s in a :: s in b && a[s] == b[s]
  {
    var a := KeySections(keys, done + {k});
    var b := KeySections(keys, done)[KeyName(k) := keys[k]];
    forall s | s in a ensures s in b && a[s] == b[s] {
      var j :| j in done + {k} && j in keys && s == KeyName(j);
      if j != k && s == KeyName(k) {
        KeyNameInjective(j, k);
      }
    }
  }

  /** Every key section beforehand, and the new one, is there after the addition. */
  lemma KeySectionsAddNew(keys: Settings, done: set<string>, k: string)
    requires k in keys && k !in done
    ensures var a := KeySections(keys, done + {k}); var b := KeySections(keys, done)[KeyName(k) := keys[k]];
      forall s | s in b :: s in a
  {
    var a := KeySections(keys, done + {k});
    var b := KeySections(keys, done)[KeyName(k) := keys[k]];
    forall s | s in b ensures s in a {
      if s != KeyName(k) {
        var j :| j in done && j in keys && s == KeyName(j);
        assert j in done + {k};
      }
    }
  }

  /** One turn of the loop over `default_keys`: section `k` moves from to-do to done. */
  lemma KeySectionsStep(base: Settings, keys: Settings, todo: set<string>, k: string)
    requires k in todo && todo <= keys.Keys
    ensures (base + KeySections(keys, keys.Keys - todo))[KeyName(k) := keys[k]] == base + KeySections(keys, keys.Keys - (todo - {k}))
  {
    var done := keys.Keys - todo;
    KeySectionsAdd(keys, done, k);
    UnionUpdate(base, KeySections(keys, done), KeyName(k), keys[k]);
    assert keys.Keys - (todo - {k}) == done + {k};
  }

  lemma UnionUpdate(a: Settings, b: Settings, x: string, v: Section)
    ensures (a + b)[x := v] == a + b[x := v]
  {
  }

  /** `config[section][param]`, if there is one. */
  function Get(c: Settings, section: string, param: string): Option<Value> {
    if section in c && param in c[section] then Some(c[section][param]) else None
  }

  /** One line of the user's file: creates the section if needed and sets the parameter. */
  function Put(c: Settings, st: Setting): Settings {
    var sec := if st.section in c then c[st.section] else map[];
    c[st.section := sec[st.param := ProcessValue(st.section, st.value)]]
  }

  /** The user's settings, applied in the order of the file. */
  function Merge(c: Settings, user: seq<Setting>): Settings {
    if user == [] then c else Put(Merge(c, user[..|user| - 1]), user[|user| - 1])
  }

  /** The value the file sets last for `section` and `param`, if any. */
  function LastSet(user: seq<Setting>, section: string, param: string): Option<string> {
    if user == [] then None
    else if user[|user| - 1].section == section && user[|user| - 1].param == param then Some(user[|user| - 1].value)
    else LastSet(user[..|user| - 1], section, param)
  }

  /**
    A user's setting overrides only its own parameter: the last line for a
    parameter decides its value, and every parameter the file does not
    name keeps its default.
  */
  lemma {:induction false} MergeGet(c: Settings, user: seq<Setting>, section: string, param: string)
    ensures Get(Merge(c, user), section, param) ==
      match LastSet(user, section, param)
      case Some(v) => Some(ProcessValue(section, v))
      case None => Get(c, section, param)
    decreases |user|
  {
    if user != [] {
      MergeGet(c, user[..|user| - 1], section, param);
    }
  }

  /** The sections are the default ones and those the file names: unknown sections are created. */
  lemma {:induction false} MergeSections(c: Settings, user: seq<Setting>, section: string)
    ensures section in Merge(c, user) <==> section in c || exists i | 0 <= i < |user| :: user[i].section == section
    decreases |user|
  {
    if user != [] {
      var init := user[..|user| - 1];
      MergeSections(c, init, section);
      assert forall i | 0 <= i < |init| :: init[i] == user[i];
      if i :| 0 <= i < |user| && user[i].section == section {
        if i < |init| {
          assert init[i].section == section;
        }
      }
    }
  }

  // ---------------------------------------------------------------------
  // _add_dynamic_values

  /** The directories derived from the data directory, in the order they are derived. */
  const DirLabels: seq<string> := ["entries", "diffs", "metadata"]

  /** `'%s_dir' % lbl` */
  function DirName(lbl: string): (r: string)
    ensures |r| == |lbl| + 4 && r[..|lbl|] == lbl
  {
    var r := lbl + "_dir";
    assert r[..|lbl|] == lbl;
    r
  }

  /** Only the label `data` would name the data directory itself. */
  lemma DirNameNotDataDir(lbl: string)
    requires lbl != "data"
    ensures DirName(lbl) != "data_dir"
  {
  }

  /**
    One pass of the loop in `_add_dynamic_values`: a directory that is not
    set becomes `data_dir/<label>`; then a missing `data_dir` raises
    `KeyError`, and a flag there `AttributeError`.
  */
  function Step(g: Section, lbl: string): Result<Section> {
    if DirName(lbl) in g then Ok(g)
    else if "data_dir" !in g then Err(KeyError)
    else match g["data_dir"]
      case Str(d) => Ok(g[DirName(lbl) := Str(PathJoin(d, lbl))])
      case _ => Err(AttributeError)
  }

  /** The loop over `labels`, stopping at the first error. */
  function Steps(g: Section, labels: seq<string>): Result<Section>
    decreases |labels|
  {
    if labels == [] then Ok(g)
    else match Step(g, labels[0])
      case Ok(g') => Steps(g', labels[1..])
      case Err(e) => Err(e)
  }

  /** One pass adds at most its own directory, below the data directory, and keeps the rest. */
  lemma StepSpec(g: Section, l: string)
    requires l != "data"
    ensures Step(g, l).Err? <==> DirName(l) !in g && ("data_dir" !in g || !g["data_dir"].Str?)
    ensures Step(g, l).Err? ==> Step(g, l).error == (if "data_dir" in g then AttributeError else KeyError)
    ensures Step(g, l).Ok? ==> Step(g, l).value.Keys == g.Keys + {DirName(l)}
    ensures Step(g, l).Ok? ==> forall p <- g :: Step(g, l).value[p] == g[p]
    ensures Step(g, l).Ok? && DirName(l) !in g ==> Step(g, l).value[DirName(l)] == Str(PathJoin(g["data_dir"].s, l))
  {
    DirNameNotDataDir(l);
  }

  /** The loop fails exactly when a directory is missing and the data directory is not a string. */
  lemma {:induction false} StepsErr(g: Section, labels: seq<string>)
    requires forall l <- labels :: l != "data"
    ensures Steps(g, labels).Err? <==> (exists l <- labels :: DirName(l) !in g) && ("data_dir" !in g || !g["data_dir"].Str?)
    ensures Steps(g, labels).Err? ==> Steps(g, labels).error == (if "data_dir" in g then AttributeError else KeyError)
    decreases |labels|
  {
    if labels != [] {
      var l0 := labels[0];
      assert l0 in labels;
      assert forall l <- labels[1..] :: l in labels;
      assert forall l <- labels :: l == l0 || l in labels[1..];
      StepSpec(g, l0);
      var s := Step(g, l0);
      if s.Ok? {
        StepsErr(s.value, labels[1..]);
        assert Steps(g, labels) == Steps(s.value, labels[1..]);
      }
    }
  }

  /**
    Otherwise the loop adds the missing directories below the data
    directory and changes nothing else.
  */
  lemma {:induction false} StepsOk(g: Section, labels: seq<string>)
    requires forall l <- labels :: l != "data"
    requires (forall l <- labels :: DirName(l) in g) || ("data_dir" in g && g["data_dir"].Str?)
    requires Steps(g, labels).Ok?
    ensures forall p <- g :: p in Steps(g, labels).value && Steps(g, labels).value[p] == g[p]
    ensures forall p <- Steps(g, labels).value :: p in g || exists l <- labels :: p == DirName(l)
    ensures forall l <- labels ::
      DirName(l) in Steps(g, labels).value &&
      (DirName(l) !in g ==> Steps(g, labels).value[DirName(l)] == Str(PathJoin(g["data_dir"].s, l)))
    decreases |labels|
  {
    if labels != [] {
      var l0 := labels[0];
      assert l0 in labels;
      assert forall l <- labels[1..] :: l in labels;
      assert forall l <- labels :: l == l0 || l in labels[1..];
      StepSpec(g, l0);
      var g' := Step(g, l0).value;
      StepsOk(g', labels[1..]);
      var r := Steps(g, labels).value;
      assert r == Steps(g', labels[1..]).value;
      assert forall l <- labels :: DirName(l) !in g ==> DirName(l) !in g' || l == l0;
    }
  }

  /** `_add_dynamic_values` on the general section. */
  function Dynamic(general: Section): (r: Result<Section>)
    ensures r.Err? <==> (exists l <- DirLabels :: DirName(l) !in general) && ("data_dir" !in general || !general["data_dir"].Str?)
    ensures r.Err? ==> r.error == (if "data_dir" in general then AttributeError else KeyError)
    ensures r.Ok? ==> forall p <- general :: p in r.value && r.value[p] == general[p]
    ensures r.Ok? ==> forall p <- r.value :: p in general || exists l <- DirLabels :: p == DirName(l)
    ensures r.Ok? ==> forall l <- DirLabels ::
      DirName(l) in r.value &&
      (DirName(l) !in general ==> r.value[DirName(l)] == Str(PathJoin(general["data_dir"].s, l)))
  {
    StepsErr(general, DirLabels);
    if Steps(general, DirLabels).Ok? then StepsOk(general, DirLabels); Steps(general, DirLabels)
    else Steps(general, DirLabels)
  }

  /** Deriving the directories a second time changes nothing. */
  lemma DynamicIdempotent(general: Section)
    requires Dynamic(general).Ok?
    ensures Dynamic(Dynamic(general).value) == Dynamic(general)
  {
    var g := Dynamic(general).value;
    var h := Dynamic(g);
    assert h.Ok?;
    assert h.value.Keys == g.Keys;
  }

  // ---------------------------------------------------------------------
  // ConfigManager

  /** The configuration, one section per name. */
  class ConfigManager {
    var config: Settings

    /**
      `ConfigManager.__init__` up to `_add_dynamic_values`: the defaults,
      then each key section under its `_keys` name, then the user's
      settings in the order of the file.
    */
    constructor(defaults: Settings, keys: Settings, user: seq<Setting>)
      ensures config == Merge(defaults + KeySections(keys, keys.Keys), user)
    {
      config := defaults;
      new;
      AddKeySections(keys);
      ReadUser(user);
    }

    /** The loop over `default_keys`, in whatever order the dictionary gives its sections. */
    method AddKeySections(keys: Settings)
      modifies this
      ensures config == old(config) + KeySections(keys, keys.Keys)
    {
      var todo := keys.Keys;
      assert KeySections(keys, keys.Keys - todo) == map[];
      while todo != {}
        invariant todo <= keys.Keys
        invariant config == old(config) + KeySections(keys, keys.Keys - todo)
        decreases todo
      {
        var k := Pick(todo);
        KeySectionsStep(old(config), keys, todo, k);
        config := config[KeyName(k) := keys[k]];
        todo := todo - {k};
      }
      assert keys.Keys - todo == keys.Keys;
    }

    /** The loop over the user's file. */
    method ReadUser(user: seq<Setting>)
      modifies this
      ensures config == Merge(old(config), user)
    {
      for i := 0 to |user|
        invariant config == Merge(old(config), user[..i])
      {
        assert user[..i + 1][..i] == user[..i];
        var st := user[i];
        if st.section !in config {
          config := config[st.section := map[]];
        }
        config := config[st.section := config[st.section][st.param := ProcessValue(st.section, st.value)]];
      }
      assert user[..|user|] == user;
    }

    /** `_add_dynamic_values`, which leaves the configuration as it was when it fails. */
    method AddDynamicValues() returns (err: Option<Error>)
      modifies this
      ensures "general" !in old(config) ==> err == Some(AttributeError) && config == old(config)
      ensures "general" in old(config) ==>
        match Dynamic(old(config)["general"])
        case Ok(g) => err.None? && config == old(config)["general" := g]
        case Err(e) => err == Some(e) && config == old(config)
    {
      var attr := GetAttr("general");
      if attr.Err? {
        return Some(attr.error);
      }
      var section := attr.value;
      for i := 0 to |DirLabels|
        invariant Steps(section, DirLabels[i..]) == Dynamic(attr.value)
      {
        assert DirLabels[i..][1..] == DirLabels[i + 1..];
        var dn := DirName(DirLabels[i]);
        if dn !in section {
          if "data_dir" !in section {
            return Some(KeyError);
          }
          match section["data_dir"]
          case Str(d) =>
            section := section[dn := Str(PathJoin(d, DirLabels[i]))];
          case _ =>
            return Some(AttributeError);
        }
      }
      config := config["general" := section];
      return None;
    }

    /** `__getattr__`: the section of that name; `AttributeError` for an unknown one. */
    function GetAttr(name: string): (r: Result<Section>)
      reads this
      ensures r.Ok? <==> name in config
      ensures r.Ok? ==> r.value == config[name]
      ensures r.Err? ==> r.error == AttributeError
    {
      if name in config then Ok(config[name]) else Err(AttributeError)
    }
  }

  /** Some element of a non-empty set: a dictionary yields its keys in no fixed order. */
  method Pick<T>(s: set<T>) returns (x: T)
    requires s != {}
    ensures x in s
  {
    x :| x in s;
  }

  // ---------------------------------------------------------------------
  // The module-level `Config`

  /** The defaults of `writelightly/conf.py` with the key sections added. */
  function Base(home: string, env: map<string, string>): Settings {
    DefaultConfig(home, env) + KeySections(DefaultKeys, DefaultKeys.Keys)
  }

  /** The defaults of `conf.py` with the key sections added. */
  function LegacyBase(home: string, env: map<string, string>): Settings {
    LegacyDefaultConfig(home, env) + KeySections(LegacyDefaultKeys, LegacyDefaultKeys.Keys)
  }

  /** No key section is called `general`. */
  lemma GeneralNotKeys(keys: Settings)
    ensures "general" !in KeySections(keys, keys.Keys)
  {
  }

  lemma UnionLeft(a: Settings, b: Settings, s: string)
    requires s in a && s !in b
    ensures s in a + b && (a + b)[s] == a[s]
  {
  }

  lemma BaseGeneral(home: string, env: map<string, string>)
    ensures "general" in Base(home, env) && Base(home, env)["general"] == DefaultConfig(home, env)["general"]
  {
    var keys := DefaultKeys;
    GeneralNotKeys(keys);
    UnionLeft(DefaultConfig(home, env), KeySections(keys, keys.Keys), "general");
  }

  lemma LegacyBaseGeneral(home: string, env: map<string, string>)
    ensures "general" in LegacyBase(home, env) && LegacyBase(home, env)["general"] == LegacyDefaultConfig(home, env)["general"]
  {
    var keys := LegacyDefaultKeys;
    GeneralNotKeys(keys);
    UnionLeft(LegacyDefaultConfig(home, env), KeySections(keys, keys.Keys), "general");
  }

  /** `Config = ConfigManager()` of `writelightly/conf.py`. */
  method Load(home: string, env: map<string, string>, user: seq<Setting>) returns (c: ConfigManager, err: Option<Error>)
    ensures fresh(c)
    ensures var merged := Merge(Base(home, env), user);
      "general" in merged &&
      match Dynamic(merged["general"])
      case Ok(g) => err.None? && c.config == merged["general" := g]
      case Err(e) => err == Some(e)
  {
    c := new ConfigManager(DefaultConfig(home, env), DefaultKeys, user);
    BaseGeneral(home, env);
    MergeSections(Base(home, env), user, "general");
    err := c.AddDynamicValues();
  }

  /** `Config = ConfigManager()` of `conf.py`, which derives no directories. */
  method LoadLegacy(home: string, env: map<string, string>, user: seq<Setting>) returns (c: ConfigManager)
    ensures fresh(c)
    ensures c.config == Merge(LegacyBase(home, env), user)
  {
    c := new ConfigManager(LegacyDefaultConfig(home, env), LegacyDefaultKeys, user);
  }

  /** The built-in general sections set no directory, or each below the built-in data directory. */
  lemma DefaultDirs(home: string, env: map<string, string>, lbl: string)
    requires lbl in DirLabels
    ensures DirName(lbl) !in DefaultConfig(home, env)["general"]
    ensures DirName(lbl) in LegacyDefaultConfig(home, env)["general"]
    ensures LegacyDefaultConfig(home, env)["general"][DirName(lbl)] == Str(PathJoin(DataDir(home), lbl))
  {
    if lbl == "entries" {
      assert DirName(lbl) == "entries_dir";
    } else if lbl == "diffs" {
      assert DirName(lbl) == "diffs_dir";
    } else {
      assert DirName(lbl) == "metadata_dir";
    }
  }

  /**
    The directories follow a `data_dir` the user sets, unless the user sets
    them too.
  */
  lemma DirsFollowDataDir(home: string, env: map<string, string>, user: seq<Setting>, lbl: string, d: string)
    requires lbl in DirLabels
    requires LastSet(user, "general", "data_dir") == Some(d) && d != "yes" && d != "no"
    requires LastSet(user, "general", DirName(lbl)) == None
    ensures var merged := Merge(Base(home, env), user);
      "general" in merged && Dynamic(merged["general"]).Ok? &&
      Dynamic(merged["general"]).value[DirName(lbl)] == Str(PathJoin(d, lbl))
  {
    BaseGeneral(home, env);
    DefaultDirs(home, env, lbl);
    DirsFollow(Base(home, env), user, lbl, d);
  }

  /** `DirsFollowDataDir` for any settings whose general section leaves the directory unset. */
  lemma DirsFollow(base: Settings, user: seq<Setting>, lbl: string, d: string)
    requires lbl in DirLabels
    requires "general" in base && DirName(lbl) !in base["general"]
    requires LastSet(user, "general", "data_dir") == Some(d) && d != "yes" && d != "no"
    requires LastSet(user, "general", DirName(lbl)) == None
    ensures var merged := Merge(base, user);
      "general" in merged && Dynamic(merged["general"]).Ok? &&
      Dynamic(merged["general"]).value[DirName(lbl)] == Str(PathJoin(d, lbl))
  {
    MergeSections(base, user, "general");
    MergeGet(base, user, "general", "data_dir");
    MergeGet(base, user, "general", DirName(lbl));
    var g := Merge(base, user)["general"];
    assert !EndsWith("general", "_keys");
    assert g["data_dir"] == Str(d);
    assert DirName(lbl) !in g;
  }

  /** In `conf.py` the directories stay below the built-in data directory, whatever `data_dir` the user sets. */
  lemma LegacyDirsFixed(home: string, env: map<string, string>, user: seq<Setting>, lbl: string)
    requires lbl in DirLabels
    requires LastSet(user, "general", DirName(lbl)) == None
    ensures Get(Merge(LegacyBase(home, env), user), "general", DirName(lbl)) == Some(Str(PathJoin(DataDir(home), lbl)))
  {
    LegacyBaseGeneral(home, env);
    DefaultDirs(home, env, lbl);
    MergeGet(LegacyBase(home, env), user, "general", DirName(lbl));
  }

  /**
    Every default key section is available under its `_keys` name, each
    binding as the user's file sets it last, or else as by default.
  */
  lemma KeySectionsAvailable(defaults: Settings, keys: Settings, user: seq<Setting>, k: string, param: string)
    requires k in keys
    ensures var c := Merge(defaults + KeySections(keys, keys.Keys), user);
      KeyName(k) in c &&
      Get(c, KeyName(k), param) ==
        match LastSet(user, KeyName(k), param)
        case Some(v) => Some(KeyList(Words(v)))
        case None => if param in keys[k] then Some(keys[k][param]) else None
  {
    var base := defaults + KeySections(keys, keys.Keys);
    assert KeyName(k) in KeySections(keys, keys.Keys);
    assert KeySections(keys, keys.Keys)[KeyName(k)] == keys[k] by {
      forall j | j in keys && KeyName(j) == KeyName(k) ensures keys[j] == keys[k] {
        KeyNameInjective(j, k);
      }
    }
    MergeSections(base, user, KeyName(k));
    MergeGet(base, user, KeyName(k), param);
  }
}

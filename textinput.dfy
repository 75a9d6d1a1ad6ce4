// A one-line text field kept in memory: a list of characters with a cursor
// and a prompt prefix that editing does not touch (writelightly/textinput.py
// and its copy textinput.py).

module TextInput {
  import opened Wrappers
  import opened Strings

  /** A key as `get_char` delivers it: a multi-byte character as a string, anything else as a code. */
  datatype Key = Chars(s: string) | Code(c: int)

  /** The field's value, one element per typed character, and the cursor. */
  datatype Field = Field(value: seq<string>, pos: nat)

  const SOH := 1
  const STX := 2
  const EOT := 4
  const ENQ := 5
  const ACK := 6
  const BS := 8
  const KEY_LEFT := 260
  const KEY_RIGHT := 261
  const KEY_HOME := 262
  const KEY_BACKSPACE := 263
  const KEY_DC := 330
  const KEY_END := 360

  /** `curses.ascii.isprint` */
  predicate IsPrint(c: int) {
    32 <= c <= 126
  }

  /** The prefix as the field's first elements, one per character. */
  function Chars1(s: string): (r: seq<string>)
    ensures |r| == |s| && forall i | 0 <= i < |s| :: r[i] == [s[i]]
  {
    seq(|s|, i requires 0 <= i < |s| => [s[i]])
  }

  /** Python's `list.insert(i, x)` for `i >= 0`: past the end it appends. */
  function Insert(v: seq<string>, i: nat, x: string): (r: seq<string>)
    ensures |r| == |v| + 1
    ensures i <= |v| ==> r == v[..i] + [x] + v[i..]
    ensures i > |v| ==> r == v + [x]
  {
    if i <= |v| then v[..i] + [x] + v[i..] else v + [x]
  }

  /** Python's `list.pop(i)`, `IndexError` past the end. */
  function Pop(v: seq<string>, i: nat): (r: Result<seq<string>>)
    ensures r.Ok? <==> i < |v|
    ensures r.Ok? ==> r.value == v[..i] + v[i + 1..]
    ensures r.Err? ==> r.error == IndexError
  {
    if i < |v| then Ok(v[..i] + v[i + 1..]) else Err(IndexError)
  }

  /** The field after `__init__`: the prefix, with the cursor after it. */
  function Initial(prefix: string): Field {
    Field(Chars1(prefix), |prefix|)
  }

  /** Puts `x` at the cursor and advances it, if the cursor is still inside the window. */
  function Typed(f: Field, x: string, maxx: int): Field {
    if f.pos < maxx then Field(Insert(f.value, f.pos, x), f.pos + 1) else f
  }

  /**
    `do_command`: a multi-byte character or a printable code is typed;
    Ctrl-A/Home, Ctrl-B/Left, Backspace, Ctrl-D/Delete, Ctrl-E/End and
    Ctrl-F/Right edit; other codes change nothing. The result is the
    exception raised, if any, and the field as the call leaves it. An empty
    string fails in `isprint` and a printable one-character string in `chr`
    when it would be typed (`TypeError`, before any change); a backspace
    past the end of the value fails in `list.pop` (`IndexError`) with the
    cursor already moved back, the value as it was.
  */
  function Command(f: Field, k: Key, prefix: string, maxx: int): (r: (Option<Error>, Field))
    ensures r.0.None? || r.0 == Some(IndexError) || r.0 == Some(TypeError)
    ensures r.0 == Some(IndexError) <==>
      k.Code? && (k.c == BS || k.c == KEY_BACKSPACE) && |prefix| < f.pos && |f.value| < f.pos
    ensures r.0 == Some(IndexError) ==> r.1 == Field(f.value, f.pos - 1)
    ensures r.0 == Some(TypeError) <==> k.Chars? && (|k.s| == 0 || (|k.s| == 1 && IsPrint(k.s[0] as int) && f.pos < maxx))
    ensures r.0 == Some(TypeError) ==> r.1 == f
  {
    var l := |prefix|;
    match k
    case Chars(s) =>
      if |s| > 1 then (None, Typed(f, s, maxx))
      else if |s| == 0 || (IsPrint(s[0] as int) && f.pos < maxx) then (Some(TypeError), f)
      else (None, f)
    case Code(c) =>
      if IsPrint(c) then (None, Typed(f, [c as char], maxx))
      else if c == SOH || c == KEY_HOME then (None, f.(pos := l))
      else if c == STX || c == KEY_LEFT then (None, if f.pos > l then f.(pos := f.pos - 1) else f)
      else if c == BS || c == KEY_BACKSPACE then
        if f.pos > l then
          match Pop(f.value, f.pos - 1)
          case Ok(v) => (None, Field(v, f.pos - 1))
          case Err(e) => (Some(e), f.(pos := f.pos - 1))
        else if f.pos == l && |f.value| == l then (None, Field([], 0))
        else (None, f)
      else if c == EOT || c == KEY_DC then
        match Pop(f.value, f.pos)
        case Ok(v) => (None, f.(value := v))
        case Err(_) => (None, f)
      else if c == ENQ || c == KEY_END then (None, f.(pos := |f.value|))
      else if c == ACK || c == KEY_RIGHT then
        (None, if f.pos < maxx && f.pos < |f.value| then f.(pos := f.pos + 1) else f)
      else (None, f)
  }

  /** The prefix is intact and the cursor is between it and the end of the value. */
  predicate Editing(f: Field, prefix: string) {
    |prefix| <= f.pos <= |f.value| && f.value[..|prefix|] == Chars1(prefix)
  }

  /** `gather` */
  function Gather(f: Field): string {
    Concat(f.value)
  }

  lemma ConcatChars(s: string)
    ensures Concat(Chars1(s)) == s
  {
    if s != [] {
      assert Chars1(s)[1..] == Chars1(s[1..]);
      ConcatChars(s[1..]);
    }
  }

  /** A new field shows exactly the prefix, with the cursor after it. */
  lemma InitialEditing(prefix: string)
    ensures Editing(Initial(prefix), prefix) && Gather(Initial(prefix)) == prefix
  {
    ConcatChars(prefix);
  }

  /** While the prefix is intact the shown text starts with it. */
  lemma GatherStartsWithPrefix(f: Field, prefix: string)
    requires Editing(f, prefix)
    ensures StartsWith(Gather(f), prefix)
  {
    assert f.value == f.value[..|prefix|] + f.value[|prefix|..];
    ConcatAppend(f.value[..|prefix|], f.value[|prefix|..]);
    ConcatChars(prefix);
  }

  /**
    No edit reaches into the prefix: from an intact field every key but a
    one-character string succeeds, and leaves the prefix intact, except the
    backspace on a bare prefix, which empties the field.
  */
  lemma CommandKeepsPrefix(f: Field, k: Key, prefix: string, maxx: int)
    requires Editing(f, prefix) && (k.Chars? ==> |k.s| > 1)
    ensures Command(f, k, prefix, maxx).0.None?
    ensures var r := Command(f, k, prefix, maxx).1;
      Editing(r, prefix) ||
      (r == Field([], 0) && k.Code? && (k.c == BS || k.c == KEY_BACKSPACE) && |f.value| == f.pos == |prefix|)
  {
    var r := Command(f, k, prefix, maxx).1;
    if k.Code? && (k.c == BS || k.c == KEY_BACKSPACE) && f.pos > |prefix| {
      assert r.value[..|prefix|] == f.value[..|prefix|];
    } else if k.Code? && (k.c == EOT || k.c == KEY_DC) && f.pos < |f.value| {
      assert r.value[..|prefix|] == f.value[..|prefix|];
    } else if (k.Chars? || IsPrint(k.c)) && f.pos < maxx {
      assert r.value[..|prefix|] == f.value[..|prefix|];
    }
  }

  /** Typing inserts at the cursor: the shown text gains the character there. */
  lemma TypedGather(f: Field, x: string, maxx: int)
    requires f.pos <= |f.value| && f.pos < maxx
    ensures Gather(Typed(f, x, maxx)) == Concat(f.value[..f.pos]) + x + Concat(f.value[f.pos..])
  {
    var v := f.value[..f.pos] + [x] + f.value[f.pos..];
    ConcatAppend(f.value[..f.pos] + [x], f.value[f.pos..]);
    ConcatAppend(f.value[..f.pos], [x]);
    assert Concat([x]) == x + Concat([]);
  }

  /** Backspace undoes typing a character. */
  lemma BackspaceUndoesTyping(f: Field, c: int, prefix: string, maxx: int)
    requires Editing(f, prefix) && IsPrint(c) && f.pos < maxx
    ensures Command(Command(f, Code(c), prefix, maxx).1, Code(KEY_BACKSPACE), prefix, maxx) == (None, f)
  {
    var t := Command(f, Code(c), prefix, maxx).1;
    assert t.value[..f.pos] + t.value[f.pos + 1..] == f.value;
  }

  /** The text field of a prompt. */
  class TextInput {
    const prefix: string
    const maxx: int
    var value: seq<string>
    var pos: nat

    function State(): Field
      reads this
    {
      Field(value, pos)
    }

    /** `TextInput.__init__`, with the width of the window as `maxx`. */
    constructor(prefix: string, maxx: int)
      ensures this.prefix == prefix && this.maxx == maxx
      ensures State() == Initial(prefix)
    {
      this.prefix, this.maxx := prefix, maxx;
      value := Chars1(prefix);
      pos := |prefix|;
    }

    /** `do_command`: the exception raised, if any, and the field as `Command` says. */
    method DoCommand(k: Key) returns (err: Option<Error>)
      modifies this
      ensures (err, State()) == Command(old(State()), k, prefix, maxx)
    {
      err := None;
      var l := |prefix|;
      match k
      case Chars(s) => {
        if |s| > 1 {
          if pos < maxx {
            value := Insert(value, pos, s);
            pos := pos + 1;
          }
        } else if |s| == 0 || (IsPrint(s[0] as int) && pos < maxx) {
          err := Some(TypeError);
        }
      }
      case Code(c) => {
        if IsPrint(c) {
          if pos < maxx {
            value := Insert(value, pos, [c as char]);
            pos := pos + 1;
          }
        } else if c == SOH || c == KEY_HOME {
          pos := l;
        } else if c == STX || c == KEY_LEFT {
          if pos > l {
            pos := pos - 1;
          }
        } else if c == BS || c == KEY_BACKSPACE {
          if pos > l {
            pos := pos - 1;
            if pos < |value| {
              value := value[..pos] + value[pos + 1..];
            } else {
              err := Some(IndexError);
            }
          } else if pos == l && |value| == l {
            pos := 0;
            value := [];
          }
        } else if c == EOT || c == KEY_DC {
          if pos < |value| {
            value := value[..pos] + value[pos + 1..];
          }
        } else if c == ENQ || c == KEY_END {
          pos := |value|;
        } else if c == ACK || c == KEY_RIGHT {
          if pos < maxx && pos < |value| {
            pos := pos + 1;
          }
        }
      }
    }

    /** `gather`: the characters of the value, the prefix first while it is intact. */
    function GatherValue(): (r: string)
      reads this
      ensures Editing(State(), prefix) ==> StartsWith(r, prefix)
    {
      GatherStartsWithPrefixOf(State(), prefix);
      Gather(State())
    }
  }

  lemma GatherStartsWithPrefixOf(f: Field, prefix: string)
    ensures Editing(f, prefix) ==> StartsWith(Gather(f), prefix)
  {
    if Editing(f, prefix) {
      GatherStartsWithPrefix(f, prefix);
    }
  }
}

// The screen manager: areas laid out side by side in equal columns, a stack
// of replaced areas per slot, and the resize loop that hides the areas that
// do not fit (writelightly/screen.py).

module Screen {
  import opened Wrappers

  /** An area on screen, known by its identity and the curses window it draws in. */
  datatype Area = Area(id: int, window: int)

  /** `(y, x, y0, x0)`: height, width and the top-left corner of an area. */
  datatype Coords = Coords(y: int, x: int, y0: int, x0: int)

  function Sum(s: seq<int>): int {
    if s == [] then 0 else Sum(s[..|s| - 1]) + s[|s| - 1]
  }

  /** The number of the first `i` areas that are laid out, those not in `exclude`. */
  function Rank(exclude: seq<int>, i: nat): nat {
    if i == 0 then 0 else Rank(exclude, i - 1) + (if i - 1 in exclude then 0 else 1)
  }

  lemma {:induction false} RankLess(exclude: seq<int>, i: nat, n: nat)
    requires i < n && i !in exclude
    ensures Rank(exclude, i) < Rank(exclude, n)
    decreases n
  {
    if n - 1 != i {
      RankLess(exclude, i, n - 1);
    }
    RankMono(exclude, i, n - 1);
  }

  lemma {:induction false} RankMono(exclude: seq<int>, i: nat, n: nat)
    requires i <= n
    ensures Rank(exclude, i) <= Rank(exclude, n)
    decreases n
  {
    if i < n {
      RankMono(exclude, i, n - 1);
    }
  }

  /** Excluding one more laid-out area lowers the count of laid-out areas. */
  lemma {:induction false} RankExclude(exclude: seq<int>, e: int, n: nat)
    requires 0 <= e < n && e !in exclude
    ensures Rank(exclude + [e], n) < Rank(exclude, n)
    decreases n
  {
    RankExcludeLe(exclude, e, n - 1);
    assert e == n - 1 || e < n - 1;
    if e < n - 1 {
      RankExclude(exclude, e, n - 1);
    }
  }

  lemma {:induction false} RankExcludeLe(exclude: seq<int>, e: int, n: nat)
    ensures Rank(exclude + [e], n) <= Rank(exclude, n)
    decreases n
  {
    if n > 0 {
      RankExcludeLe(exclude, e, n - 1);
    }
  }

  /** The equal share of `x` columns among `l` areas, `x // l`. */
  function Share(x: nat, l: nat): nat {
    if l == 0 then 0 else x / l
  }

  /** The columns left over after the equal shares. */
  function Rem(x: nat, l: nat): nat {
    if l == 0 then 0 else x % l
  }

  /** The width of the `j`-th column given the share `q` and the remainder `r`: the first takes the remainder. */
  function WidthAt(q: nat, r: nat, j: nat): nat {
    q + (if j == 0 then r else 0)
  }

  /** Where the `j`-th column starts: after the columns before it. */
  function OffsetAt(q: nat, r: nat, j: nat): nat {
    if j == 0 then 0 else OffsetAt(q, r, j - 1) + WidthAt(q, r, j - 1)
  }

  /** The widths `_calc` gives `l` areas sharing `x` columns. */
  function Widths(x: nat, l: nat): (r: seq<int>)
    ensures |r| == l
  {
    seq(l, j requires 0 <= j < l => WidthAt(Share(x, l), Rem(x, l), j))
  }

  /** An offset is so many equal shares, plus the remainder once the first column is passed. */
  lemma {:induction false} OffsetClosed(q: nat, r: nat, j: nat)
    ensures OffsetAt(q, r, j) == j * q + (if j > 0 then r else 0)
    decreases j
  {
    if j > 0 {
      OffsetClosed(q, r, j - 1);
      assert j * q == (j - 1) * q + q;
    }
  }

  /** The last column ends at the right edge of the screen. */
  lemma OffsetEnd(x: nat, l: nat)
    requires l > 0
    ensures OffsetAt(Share(x, l), Rem(x, l), l) == x
  {
    OffsetClosed(Share(x, l), Rem(x, l), l);
    assert l * (x / l) + x % l == x;
  }

  lemma {:induction false} OffsetMono(q: nat, r: nat, a: nat, b: nat)
    requires a <= b
    ensures OffsetAt(q, r, a) <= OffsetAt(q, r, b)
    decreases b
  {
    if a < b {
      OffsetMono(q, r, a, b - 1);
    }
  }

  /** The offsets are the running sums of the widths. */
  lemma {:induction false} OffsetIsSum(x: nat, l: nat, j: nat)
    requires j <= l
    ensures OffsetAt(Share(x, l), Rem(x, l), j) == Sum(Widths(x, l)[..j])
    decreases j
  {
    if j > 0 {
      OffsetIsSum(x, l, j - 1);
      assert Widths(x, l)[..j][..j - 1] == Widths(x, l)[..j - 1];
    }
  }

  /** The columns fill the screen: the widths add up to its width. */
  lemma WidthsSum(x: nat, l: nat)
    requires l > 0
    ensures Sum(Widths(x, l)) == x
  {
    OffsetIsSum(x, l, l);
    assert Widths(x, l)[..l] == Widths(x, l);
    OffsetEnd(x, l);
  }

  /**
    The coordinates `_calc` gives the `n` areas: `None` for the excluded
    ones, and for the others, in order, full height and the next column.
  */
  function Layout(n: nat, exclude: seq<int>, y: int, x: nat): (r: seq<Option<Coords>>)
    ensures |r| == n
  {
    var l := Rank(exclude, n);
    Columns(n, exclude, y, Share(x, l), Rem(x, l))
  }

  /** The layout for the share `q` and the remainder `rem`. */
  function Columns(n: nat, exclude: seq<int>, y: int, q: nat, rem: nat): (r: seq<Option<Coords>>)
    ensures |r| == n
  {
    seq(n, i requires 0 <= i < n => Column(exclude, y, q, rem, i))
  }

  /** Area `i`'s place: `None` when it is excluded, else the column of its rank among the present ones. */
  function Column(exclude: seq<int>, y: int, q: nat, rem: nat, i: nat): Option<Coords> {
    if i in exclude then None
    else Some(Coords(y, WidthAt(q, rem, Rank(exclude, i)), 0, OffsetAt(q, rem, Rank(exclude, i))))
  }

  /** Every laid-out area lies within the screen, the first at its left edge, the last at its right edge. */
  lemma LayoutWithin(n: nat, exclude: seq<int>, y: int, x: nat, i: nat)
    requires i < n && i !in exclude
    ensures var c := Layout(n, exclude, y, x)[i].value;
      c.y == y && c.y0 == 0 && 0 <= c.x0 && c.x0 + c.x <= x &&
      (Rank(exclude, i) == 0 ==> c.x0 == 0) &&
      (Rank(exclude, i) == Rank(exclude, n) - 1 ==> c.x0 + c.x == x)
  {
    RankLess(exclude, i, n);
    var l := Rank(exclude, n);
    var j := Rank(exclude, i);
    var q, r := Share(x, l), Rem(x, l);
    assert Layout(n, exclude, y, x)[i] == Some(Coords(y, WidthAt(q, r, j), 0, OffsetAt(q, r, j)));
    ColumnWithin(q, r, l, j);
    OffsetEnd(x, l);
  }

  /** The `j`-th of `l` columns ends within the last one's end, the last one exactly there. */
  lemma ColumnWithin(q: nat, r: nat, l: nat, j: nat)
    requires j < l
    ensures OffsetAt(q, r, j) + WidthAt(q, r, j) <= OffsetAt(q, r, l)
    ensures j == l - 1 ==> OffsetAt(q, r, j) + WidthAt(q, r, j) == OffsetAt(q, r, l)
  {
    OffsetMono(q, r, j + 1, l);
  }

  /** Two laid-out areas with no laid-out area between them are adjacent columns. */
  lemma LayoutAdjacent(n: nat, exclude: seq<int>, y: int, x: nat, i: nat, k: nat)
    requires i < k < n && i !in exclude && k !in exclude && Rank(exclude, k) == Rank(exclude, i) + 1
    ensures var a, b := Layout(n, exclude, y, x)[i].value, Layout(n, exclude, y, x)[k].value;
      b.x0 == a.x0 + a.x
  {
    var l := Rank(exclude, n);
    ColumnsAdjacent(n, exclude, y, Share(x, l), Rem(x, l), i, k);
  }

  lemma ColumnsAdjacent(n: nat, exclude: seq<int>, y: int, q: nat, rem: nat, i: nat, k: nat)
    requires i < k < n && i !in exclude && k !in exclude && Rank(exclude, k) == Rank(exclude, i) + 1
    ensures var a, b := Columns(n, exclude, y, q, rem)[i].value, Columns(n, exclude, y, q, rem)[k].value;
      b.x0 == a.x0 + a.x
  {
    ColumnAt(n, exclude, y, q, rem, i);
    ColumnAt(n, exclude, y, q, rem, k);
    OffsetNext(q, rem, Rank(exclude, i), Rank(exclude, k));
  }

  /** The coordinates of one laid-out area. */
  lemma ColumnAt(n: nat, exclude: seq<int>, y: int, q: nat, rem: nat, i: nat)
    requires i < n && i !in exclude
    ensures Columns(n, exclude, y, q, rem)[i] == Some(Coords(y, WidthAt(q, rem, Rank(exclude, i)), 0, OffsetAt(q, rem, Rank(exclude, i))))
  {
  }

  lemma OffsetNext(q: nat, r: nat, j: nat, k: nat)
    requires k == j + 1
    ensures OffsetAt(q, r, k) == OffsetAt(q, r, j) + WidthAt(q, r, j)
  {
  }

  /** With every area excluded, every coordinate is `None`. */
  lemma AllExcluded(n: nat, exclude: seq<int>, y: int, x: nat)
    requires forall i | 0 <= i < n :: i in exclude
    ensures forall i | 0 <= i < n :: Layout(n, exclude, y, x)[i].None?
  {
  }

  /**
    Area `e` is the first laid-out area without enough space when the areas
    not in `ex` are laid out on a screen of `y` lines and `x` columns: it
    lacks space in its column, and every laid-out area before it has enough.
  */
  predicate FirstMisfit(areas: seq<Area>, ex: seq<int>, e: int, y: int, x: nat, enough: (Area, int, int) -> bool) {
    var c := Layout(|areas|, ex, y, x);
    && 0 <= e < |areas| && e !in ex && c[e].Some?
    && !enough(areas[e], c[e].value.y, c[e].value.x)
    && forall i | 0 <= i < e && i !in ex :: c[i].Some? && enough(areas[i], c[i].value.y, c[i].value.x)
  }

  /** The slots of the screen and the areas that replaced ones put aside. */
  datatype Slots = Slots(areas: seq<Area>, stack: map<int, seq<Area>>)

  /** The areas put aside at `index`, oldest first; none when it was never used. */
  function StackAt(s: Slots, index: int): seq<Area> {
    if index in s.stack then s.stack[index] else []
  }

  /** `replace_area`: `area` takes the slot and the old one is put aside. */
  function Replaced(s: Slots, index: nat, area: Area): (r: Slots)
    requires index < |s.areas|
    ensures |r.areas| == |s.areas| && r.areas[index] == area
    ensures forall i | 0 <= i < |s.areas| && i != index :: r.areas[i] == s.areas[i]
    ensures StackAt(r, index) == StackAt(s, index) + [s.areas[index]]
    ensures forall i | i != index :: StackAt(r, i) == StackAt(s, i)
  {
    Slots(s.areas[index := area], s.stack[index := StackAt(s, index) + [s.areas[index]]])
  }

  /** `restore_area`: the area last put aside takes the slot back; `KeyError` or `IndexError` when there is none. */
  function Restored(s: Slots, index: nat): (r: Result<Slots>)
    requires index < |s.areas|
    ensures r.Ok? <==> StackAt(s, index) != []
    ensures r.Err? ==> r.error == (if index in s.stack then IndexError else KeyError)
  {
    if index !in s.stack then Err(KeyError)
    else if s.stack[index] == [] then Err(IndexError)
    else
      var st := s.stack[index];
      Ok(Slots(s.areas[index := st[|st| - 1]], s.stack[index := st[..|st| - 1]]))
  }

  /** `get_last_window`: the window of the area last put aside at `index`, if any. */
  function LastWindow(s: Slots, index: int): (r: Option<int>)
    ensures r.Some? <==> StackAt(s, index) != []
  {
    var st := StackAt(s, index);
    if st == [] then None else Some(st[|st| - 1].window)
  }

  /** Restoring undoes replacing: the slots and every stack are as before. */
  lemma RestoreUndoesReplace(s: Slots, index: nat, area: Area)
    requires index < |s.areas|
    ensures var r := Restored(Replaced(s, index, area), index);
      r.Ok? && r.value.areas == s.areas && forall i :: StackAt(r.value, i) == StackAt(s, i)
  {
    var t := Replaced(s, index, area);
    assert StackAt(t, index)[..|StackAt(t, index)| - 1] == StackAt(s, index);
  }

  /** After a replacement the last window at that slot is the replaced area's. */
  lemma ReplacedLastWindow(s: Slots, index: nat, area: Area)
    requires index < |s.areas|
    ensures LastWindow(Replaced(s, index, area), index) == Some(s.areas[index].window)
  {
  }

  /** The screen manager's class-level state. */
  class ScreenManager {
    var areas: seq<Area>
    var stack: map<int, seq<Area>>
    var coords: seq<Option<Coords>>
    /** The `hidden` flag of each area. */
    var hidden: seq<bool>

    function State(): Slots
      reads this
    {
      Slots(areas, stack)
    }

    ghost predicate Valid()
      reads this
    {
      |hidden| == |areas|
    }

    /** `ScreenManager.init`: no areas and nothing put aside. */
    constructor()
      ensures Valid() && areas == [] && stack == map[] && coords == []
    {
      areas, stack, coords, hidden := [], map[], [], [];
    }

    /** `_calc` for a screen of `y` lines and `x` columns. */
    method Calc(exclude: seq<int>, y: int, x: nat)
      requires forall e | e in exclude :: 0 <= e < |areas|
      modifies this
      ensures coords == Layout(|areas|, exclude, y, x)
      ensures areas == old(areas) && stack == old(stack) && hidden == old(hidden)
    {
      var n := |areas|;
      var present := Present(n, exclude);
      var l := Rank(exclude, n);
      var q, r := Share(x, l), Rem(x, l);
      var xs := ColumnWidths(x, l);
      var x0s := ColumnOffsets(q, r, xs);
      coords := Place(n, exclude, present, y, q, r, xs, x0s);
    }

    /** `add_area`: the new area gets the last slot, and every area a fresh layout. */
    method AddArea(area: Area, y: int, x: nat) returns (index: nat)
      requires Valid()
      modifies this
      ensures Valid() && areas == old(areas) + [area] && stack == old(stack)
      ensures hidden == old(hidden) + [false]
      ensures index == |areas| - 1 && areas[index] == area
      ensures coords == Layout(|areas|, [], y, x)
    {
      areas := areas + [area];
      hidden := hidden + [false];
      Calc([], y, x);
      index := |areas| - 1;
    }

    method ReplaceArea(index: nat, area: Area)
      requires Valid() && index < |areas|
      modifies this
      ensures Valid() && State() == Replaced(old(State()), index, area)
      ensures coords == old(coords) && hidden == old(hidden)
    {
      var old_area := areas[index];
      if index in stack {
        stack := stack[index := stack[index] + [old_area]];
      } else {
        assert StackAt(State(), index) + [old_area] == [old_area];
        stack := stack[index := [old_area]];
      }
      areas := areas[index := area];
    }

    function GetLastWindow(index: int): (r: Option<int>)
      reads this
      ensures r == LastWindow(State(), index)
    {
      if index in stack && stack[index] != [] then Some(stack[index][|stack[index]| - 1].window) else None
    }

    /** `restore_area`, reporting the exception the source raises, if any, and then changing nothing. */
    method RestoreArea(index: nat) returns (err: Option<Error>)
      requires Valid() && index < |areas|
      modifies this
      ensures Valid() && coords == old(coords)
      ensures match Restored(old(State()), index)
        case Ok(s) => err.None? && State() == s
        case Err(e) => err == Some(e) && State() == old(State())
    {
      if index !in stack {
        err := Some(KeyError);
      } else if stack[index] == [] {
        err := Some(IndexError);
      } else {
        var st := stack[index];
        stack := stack[index := st[..|st| - 1]];
        areas := areas[index := st[|st| - 1]];
        err := None;
      }
    }

    /**
      `resize`: lays the areas out, hides the first that lacks space
      (`enough` is each area's `enough_space`) and starts again without it,
      until every laid-out area fits; returns the hidden ones, each the
      first misfit of the layout without the ones hidden before it.
    */
    method Resize(y: int, x: nat, enough: (Area, int, int) -> bool) returns (exclude: seq<int>)
      requires Valid()
      modifies this
      ensures Valid() && areas == old(areas) && stack == old(stack)
      ensures coords == Layout(|areas|, exclude, y, x)
      ensures forall e | e in exclude :: 0 <= e < |areas| && hidden[e]
      ensures forall i | 0 <= i < |areas| && i !in exclude ::
        !hidden[i] && enough(areas[i], coords[i].value.y, coords[i].value.x)
      ensures forall k | 0 <= k < |exclude| :: FirstMisfit(areas, exclude[..k], exclude[k], y, x, enough)
    {
      exclude := [];
      var n := |areas|;
      while true
        invariant Valid() && areas == old(areas) && stack == old(stack) && n == |areas|
        invariant forall e | e in exclude :: 0 <= e < n && hidden[e]
        invariant forall k | 0 <= k < |exclude| :: FirstMisfit(areas, exclude[..k], exclude[k], y, x, enough)
        decreases Rank(exclude, n)
      {
        Calc(exclude, y, x);
        var bad := Scan(exclude, y, x, enough);
        if bad.None? {
          break;
        }
        RankExclude(exclude, bad.value, n);
        ExtendMisfits(areas, exclude, bad.value, y, x, enough);
        exclude := exclude + [bad.value];
      }
    }

    /**
      One pass of the loop in `resize`: shows each laid-out area that has
      enough space, until the first that has not, which is hidden and returned.
    */
    method Scan(exclude: seq<int>, y: int, x: nat, enough: (Area, int, int) -> bool) returns (bad: Option<nat>)
      requires Valid() && coords == Layout(|areas|, exclude, y, x)
      modifies this
      ensures Valid() && areas == old(areas) && stack == old(stack) && coords == old(coords)
      ensures forall e | e in exclude && 0 <= e < |areas| :: hidden[e] == old(hidden)[e]
      ensures bad.None? ==> forall i | 0 <= i < |areas| && i !in exclude ::
        !hidden[i] && enough(areas[i], coords[i].value.y, coords[i].value.x)
      ensures bad.Some? ==> FirstMisfit(areas, exclude, bad.value, y, x, enough) && hidden[bad.value]
      ensures bad.Some? ==> forall i | 0 <= i < bad.value && i !in exclude :: !hidden[i]
      ensures bad.Some? ==> forall i | bad.value < i < |areas| :: hidden[i] == old(hidden)[i]
    {
      var n := |areas|;
      for i := 0 to n
        invariant Valid() && areas == old(areas) && stack == old(stack) && coords == old(coords)
        invariant forall e | e in exclude && 0 <= e < n :: hidden[e] == old(hidden)[e]
        invariant forall k | i <= k < n :: hidden[k] == old(hidden)[k]
        invariant forall k | 0 <= k < i && k !in exclude ::
          !hidden[k] && enough(areas[k], coords[k].value.y, coords[k].value.x)
      {
        if coords[i].Some? {
          var c := coords[i].value;
          if !enough(areas[i], c.y, c.x) {
            hidden := hidden[i := true];
            return Some(i);
          }
          hidden := hidden[i := false];
        }
      }
      return None;
    }
  }

  /** Appending the next misfit keeps every exclusion the first misfit of the layout before it. */
  lemma ExtendMisfits(areas: seq<Area>, exclude: seq<int>, e: int, y: int, x: nat, enough: (Area, int, int) -> bool)
    requires forall k | 0 <= k < |exclude| :: FirstMisfit(areas, exclude[..k], exclude[k], y, x, enough)
    requires FirstMisfit(areas, exclude, e, y, x, enough)
    ensures var ex := exclude + [e];
      forall k | 0 <= k < |ex| :: FirstMisfit(areas, ex[..k], ex[k], y, x, enough)
  {
    var ex := exclude + [e];
    forall k | 0 <= k < |ex|
      ensures FirstMisfit(areas, ex[..k], ex[k], y, x, enough)
    {
      if k < |exclude| {
        assert ex[..k] == exclude[..k] && ex[k] == exclude[k];
      } else {
        assert ex[..k] == exclude;
      }
    }
  }

  /** The first loop of `_calc`: which areas are laid out. */
  method Present(n: nat, exclude: seq<int>) returns (present: seq<bool>)
    requires forall e | e in exclude :: 0 <= e < n
    ensures |present| == n && forall i | 0 <= i < n :: present[i] == (i !in exclude)
  {
    present := seq(n, _ => true);
    for k := 0 to |exclude|
      invariant |present| == n
      invariant forall i | 0 <= i < n :: present[i] == (i !in exclude[..k])
    {
      assert exclude[k] in exclude;
      present := present[exclude[k] := false];
    }
    assert exclude[..|exclude|] == exclude;
  }

  /** The widths of `_calc`: equal shares, the remainder to the first; none for no areas. */
  method ColumnWidths(x: nat, l: nat) returns (xs: seq<int>)
    ensures xs == Widths(x, l)
  {
    if l == 0 {
      xs := [];
    } else {
      xs := seq(l, _ => x / l);
      SumConst(x / l, l);
      if Sum(xs) < x {
        xs := xs[0 := xs[0] + x - Sum(xs)];
      }
    }
  }

  /** The second loop of `_calc`: each column starts at the running sum of the widths before it. */
  method ColumnOffsets(q: nat, r: nat, xs: seq<int>) returns (x0s: seq<int>)
    requires forall j | 0 <= j < |xs| :: xs[j] == WidthAt(q, r, j)
    ensures |x0s| == |xs| && forall j | 0 <= j < |xs| :: x0s[j] == OffsetAt(q, r, j)
  {
    x0s := [];
    var x0 := 0;
    for k := 0 to |xs|
      invariant |x0s| == k && x0 == OffsetAt(q, r, k)
      invariant forall j | 0 <= j < k :: x0s[j] == OffsetAt(q, r, j)
    {
      x0s := x0s + [x0];
      x0 := x0 + xs[k];
      assert x0 == OffsetAt(q, r, k + 1);
    }
  }

  /** Hands the columns out in order to the areas that are present, `None` to the others. */
  method Place(n: nat, exclude: seq<int>, present: seq<bool>, y: int, q: nat, r: nat, xs: seq<int>, x0s: seq<int>)
    returns (result: seq<Option<Coords>>)
    requires |present| == n && forall i | 0 <= i < n :: present[i] == (i !in exclude)
    requires |xs| == |x0s| == Rank(exclude, n)
    requires forall j | 0 <= j < |xs| :: xs[j] == WidthAt(q, r, j) && x0s[j] == OffsetAt(q, r, j)
    ensures result == Columns(n, exclude, y, q, r)
  {
    result := [];
    var j := 0;
    for i := 0 to n
      invariant |result| == i && j == Rank(exclude, i)
      invariant forall k | 0 <= k < i :: result[k] == Column(exclude, y, q, r, k)
    {
      if !present[i] {
        result := result + [None];
      } else {
        RankLess(exclude, i, n);
        result := result + [Some(Coords(y, xs[j], 0, x0s[j]))];
        j := j + 1;
      }
    }
    assert forall k | 0 <= k < n :: Columns(n, exclude, y, q, r)[k] == Column(exclude, y, q, r, k);
  }

  lemma {:induction false} SumConst(q: int, l: nat)
    ensures Sum(seq(l, _ => q)) == l * q
    decreases l
  {
    if l > 0 {
      assert seq(l, _ => q)[..l - 1] == seq(l - 1, _ => q);
      SumConst(q, l - 1);
    }
  }
}

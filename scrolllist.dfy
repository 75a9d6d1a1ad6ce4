// A viewport over a list of lines: the lines `top..bottom` are shown and
// the line `current` is highlighted (scrollable_list.py).

module ScrollList {

  /** The viewport's three indices. */
  datatype View = View(top: int, current: int, bottom: int)

  /** Lines in the viewport: the window's height, or fewer when the list is shorter. */
  function Height(count: nat, ysize: nat): nat {
    if count < ysize then count else ysize
  }

  /**
    The viewport's invariant over `count` lines and a window of `ysize`
    lines: it covers `Height` consecutive lines and the current line is
    one of them. An empty list shows nothing, with `top == current == 0`
    and `bottom == -1`.
  */
  predicate Fits(v: View, count: nat, ysize: nat) {
    if count == 0 then v == View(0, 0, -1)
    else 0 <= v.top <= v.current <= v.bottom < count && v.bottom - v.top + 1 == Height(count, ysize)
  }

  function Max(a: int, b: int): int {
    if a < b then b else a
  }

  function Min(a: int, b: int): int {
    if a < b then a else b
  }

  /** The viewport after construction and after `move_to_top`: the first lines, the first one current. */
  function Initial(count: nat, ysize: nat): (v: View)
    requires ysize >= 1
    ensures Fits(v, count, ysize) && v.top == v.current == 0
  {
    View(0, 0, Height(count, ysize) - 1)
  }

  /** `move_down`: the next line, scrolling one line when the current one is at the bottom. */
  function Down(v: View, count: nat, ysize: nat): (r: View)
    requires Fits(v, count, ysize)
    ensures Fits(r, count, ysize) && r.bottom - r.top == v.bottom - v.top
    ensures r.current == if v.current < count - 1 then v.current + 1 else v.current
  {
    if v.current < v.bottom then v.(current := v.current + 1)
    else if v.bottom < count - 1 then View(v.top + 1, v.current + 1, v.bottom + 1)
    else v
  }

  /** `move_up`: the previous line, scrolling one line when the current one is at the top. */
  function Up(v: View, count: nat, ysize: nat): (r: View)
    requires Fits(v, count, ysize)
    ensures Fits(r, count, ysize) && r.bottom - r.top == v.bottom - v.top
    ensures r.current == Max(v.current - 1, 0)
  {
    if v.current > v.top then v.(current := v.current - 1)
    else if v.top > 0 then View(v.top - 1, v.current - 1, v.bottom - 1)
    else v
  }

  /** `scroll_down`: the window moves one line on, taking the current line with it only if it would leave. */
  function Scrolled(v: View, count: nat, ysize: nat): (r: View)
    requires Fits(v, count, ysize)
    ensures Fits(r, count, ysize) && r.bottom - r.top == v.bottom - v.top
    ensures v.bottom >= count - 1 ==> r == v
    ensures v.bottom < count - 1 ==> r.top == v.top + 1 && r.current == Max(v.current, r.top)
  {
    if v.bottom < count - 1 then
      View(v.top + 1, if v.current == v.top then v.current + 1 else v.current, v.bottom + 1)
    else v
  }

  /** `scroll_up`: the window moves one line back, taking the current line with it only if it would leave. */
  function ScrolledBack(v: View, count: nat, ysize: nat): (r: View)
    requires Fits(v, count, ysize)
    ensures Fits(r, count, ysize) && r.bottom - r.top == v.bottom - v.top
    ensures v.top == 0 ==> r == v
    ensures v.top > 0 ==> r.top == v.top - 1 && r.current == Min(v.current, r.bottom)
  {
    if v.top > 0 then
      View(v.top - 1, if v.current == v.bottom then v.current - 1 else v.current, v.bottom - 1)
    else v
  }

  /** `move_to_bottom`: the last line is current, at the bottom of a full window. */
  function ToBottom(count: nat, ysize: nat): (v: View)
    requires count >= 1 && ysize >= 1
    ensures Fits(v, count, ysize) && v.current == v.bottom == count - 1
    ensures v.top == Max(0, count - ysize)
  {
    var last := count - 1;
    View(if last - ysize + 1 < 0 then 0 else last - ysize + 1, last, last)
  }

  /** Down then up comes back to the same line, unless down could not move. */
  lemma DownUp(v: View, count: nat, ysize: nat)
    requires Fits(v, count, ysize) && v.current < count - 1
    ensures Up(Down(v, count, ysize), count, ysize).current == v.current
  {
  }

  /** Up then down comes back to the same line, unless up could not move. */
  lemma UpDown(v: View, count: nat, ysize: nat)
    requires Fits(v, count, ysize) && v.current > 0
    ensures Down(Up(v, count, ysize), count, ysize).current == v.current
  {
  }

  /** `n` presses of down. */
  function DownN(v: View, count: nat, ysize: nat, n: nat): (r: View)
    requires Fits(v, count, ysize)
    ensures Fits(r, count, ysize)
    decreases n
  {
    if n == 0 then v else DownN(Down(v, count, ysize), count, ysize, n - 1)
  }

  /** `n` presses of up. */
  function UpN(v: View, count: nat, ysize: nat, n: nat): (r: View)
    requires Fits(v, count, ysize)
    ensures Fits(r, count, ysize)
    decreases n
  {
    if n == 0 then v else UpN(Up(v, count, ysize), count, ysize, n - 1)
  }

  /** Pressing down `n` times advances `n` lines, stopping at the last. */
  lemma {:induction false} DownNCurrent(v: View, count: nat, ysize: nat, n: nat)
    requires Fits(v, count, ysize)
    ensures DownN(v, count, ysize, n).current == Min(v.current + n, Max(count - 1, 0))
    decreases n
  {
    if n > 0 {
      DownNCurrent(Down(v, count, ysize), count, ysize, n - 1);
    }
  }

  /** Pressing up `n` times goes back `n` lines, stopping at the first. */
  lemma {:induction false} UpNCurrent(v: View, count: nat, ysize: nat, n: nat)
    requires Fits(v, count, ysize)
    ensures UpN(v, count, ysize, n).current == Max(v.current - n, 0)
    decreases n
  {
    if n > 0 {
      UpNCurrent(Up(v, count, ysize), count, ysize, n - 1);
    }
  }

  /** A list viewed through a window of `ysize` lines. */
  class ScrollableList {
    const lines: seq<string>
    const last: int
    const ysize: nat
    var top: int
    var bottom: int
    var current: int

    function Viewport(): View
      reads this
    {
      View(top, current, bottom)
    }

    ghost predicate Valid()
      reads this
    {
      last == |lines| - 1 && ysize >= 1 && Fits(Viewport(), |lines|, ysize)
    }

    /** `ScrollableList.__init__`, with the height of the window as `ysize`. */
    constructor(lines: seq<string>, ysize: nat)
      requires ysize >= 1
      ensures Valid() && this.lines == lines && this.ysize == ysize
      ensures Viewport() == Initial(|lines|, ysize)
    {
      this.lines, this.ysize := lines, ysize;
      last := |lines| - 1;
      top := 0;
      bottom := Height(|lines|, ysize) - 1;
      current := 0;
    }

    /** The lines `draw` shows, top to bottom; the current one among them. */
    function Shown(): (r: seq<string>)
      reads this
      requires Valid() && |lines| > 0
      ensures |r| == Height(|lines|, ysize) && r[current - top] == lines[current]
    {
      lines[top..bottom + 1]
    }

    method MoveDown()
      requires Valid()
      modifies this
      ensures Valid() && Viewport() == Down(old(Viewport()), |lines|, ysize)
    {
      if current < bottom {
        current := current + 1;
      } else if bottom < last {
        top := top + 1;
        bottom := bottom + 1;
        current := current + 1;
      }
    }

    method MoveUp()
      requires Valid()
      modifies this
      ensures Valid() && Viewport() == Up(old(Viewport()), |lines|, ysize)
    {
      if current > top {
        current := current - 1;
      } else if top > 0 {
        top := top - 1;
        bottom := bottom - 1;
        current := current - 1;
      }
    }

    method ScrollDown()
      requires Valid()
      modifies this
      ensures Valid() && Viewport() == Scrolled(old(Viewport()), |lines|, ysize)
    {
      if bottom < last {
        if current == top {
          current := current + 1;
        }
        top := top + 1;
        bottom := bottom + 1;
      }
    }

    method ScrollUp()
      requires Valid()
      modifies this
      ensures Valid() && Viewport() == ScrolledBack(old(Viewport()), |lines|, ysize)
    {
      if top > 0 {
        if current == bottom {
          current := current - 1;
        }
        top := top - 1;
        bottom := bottom - 1;
      }
    }

    method MoveToTop()
      requires Valid()
      modifies this
      ensures Valid() && Viewport() == Initial(|lines|, ysize)
    {
      top := 0;
      bottom := Height(|lines|, ysize) - 1;
      current := 0;
    }

    method MoveToBottom()
      requires Valid() && |lines| >= 1
      modifies this
      ensures Valid() && Viewport() == ToBottom(|lines|, ysize)
    {
      bottom := last;
      top := bottom - ysize + 1;
      if top < 0 {
        top := 0;
      }
      current := bottom;
    }
  }
}

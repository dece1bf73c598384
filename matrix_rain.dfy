/** The falling-glyph background of components/matrix-rain.tsx.
    One integer per column ("drops") holds the row of that column's glyph;
    every tick each column is drawn at its row, moves down one row, and is
    sent back to row 0 at random once it has left the bottom of the canvas.
    Every call to Math.random() is an explicit real draw in [0, 1). */
module MatrixRain {

  /** Pixel size of one glyph cell: the column width and the row height. */
  const FontSize: nat := 14

  /** The glyph alphabet the rain paints from. */
  const Chars: string := "01アイウエオカキクケコサシスセソタチツテトナニヌネノハヒフヘホマミムメモヤユヨラリルレロワヲン!@#$%^&*()_+-=[]{}|;:,./<>?"

  /** A column is sent back to the top only when its reset draw exceeds this. */
  const ResetThreshold: real := 0.975

  /** The screen position and glyph of one column in one frame. */
  datatype Cell = Cell(x: int, y: int, glyph: char)

  /** One value of Math.random(). */
  predicate IsUnitDraw(u: real) {
    0.0 <= u < 1.0
  }

  predicate AllUnitDraws(us: seq<real>) {
    forall i :: 0 <= i < |us| ==> IsUnitDraw(us[i])
  }

  /** Math.floor(width / fontSize): the number of whole columns that fit. */
  function Columns(width: nat): (n: nat)
    ensures n * FontSize <= width < (n + 1) * FontSize
  {
    width / FontSize
  }

  /** Math.floor(Math.random() * -100): the starting row of a column. */
  function InitialDrop(u: real): (d: int)
    requires IsUnitDraw(u)
    ensures -100 <= d <= 0
    ensures d == 0 <==> u == 0.0
  {
    (u * -100.0).Floor
  }

  /** Math.floor(Math.random() * chars.length): which glyph a column shows. */
  function GlyphIndex(u: real): (k: int)
    requires IsUnitDraw(u)
    ensures 0 <= k < |Chars|
  {
    (u * (|Chars| as real)).Floor
  }

  /** The update of one column in one tick: move down one row, then return to
      row 0 when the new row lies below the canvas and the draw succeeds. */
  function Step(d: int, height: nat, u: real): (r: int)
    ensures r == d + 1 || r == 0
    ensures r != d + 1 <==> (d + 1) * FontSize > height && u > ResetThreshold
  {
    var next := d + 1;
    if next * FontSize > height && u > ResetThreshold then 0 else next
  }

  /** The drops after one tick, column by column. */
  function StepAll(ds: seq<int>, height: nat, us: seq<real>): (r: seq<int>)
    requires |us| == |ds|
    ensures |r| == |ds|
  {
    seq(|ds|, i requires 0 <= i < |ds| => Step(ds[i], height, us[i]))
  }

  /** What one tick paints: column i at (i * 14, drops[i] * 14), read before the move. */
  function Frame(ds: seq<int>, gs: seq<real>): (r: seq<Cell>)
    requires |gs| == |ds| && AllUnitDraws(gs)
    ensures |r| == |ds|
    ensures forall i :: 0 <= i < |r| ==> r[i].glyph in Chars
  {
    seq(|ds|, i requires 0 <= i < |ds| => Cell(i * FontSize, ds[i] * FontSize, Chars[GlyphIndex(gs[i])]))
  }

  /** The state kept by the effect: the canvas size and the drops array.
      The column count is fixed when the effect starts. */
  class Rain {
    var width: nat
    var height: nat
    const columns: nat
    const drops: array<int>

    ghost predicate Valid()
      reads this
    {
      drops.Length == columns
    }

    /** Setup: size the canvas to the window, count the columns and give each
        column a starting row at or above the top edge. */
    constructor (windowWidth: nat, windowHeight: nat, initDraws: seq<real>)
      requires |initDraws| == Columns(windowWidth) && AllUnitDraws(initDraws)
      ensures Valid() && fresh(drops)
      ensures width == windowWidth && height == windowHeight
      ensures columns == Columns(windowWidth)
      ensures forall i :: 0 <= i < drops.Length ==> drops[i] == InitialDrop(initDraws[i])
      ensures forall i :: 0 <= i < drops.Length ==> -100 <= drops[i] <= 0
    {
      width, height := windowWidth, windowHeight;
      var n := Columns(windowWidth);
      var a := new int[n];
      var i := 0;
      while i < n
        invariant 0 <= i <= n
        invariant forall k :: 0 <= k < i ==> a[k] == InitialDrop(initDraws[k])
      {
        a[i] := InitialDrop(initDraws[i]);
        i := i + 1;
      }
      columns, drops := n, a;
    }

    /** The window's resize listener: only the canvas size changes; the
        column count and the drops stay as they are. */
    method Resize(windowWidth: nat, windowHeight: nat)
      requires Valid()
      modifies this
      ensures Valid()
      ensures width == windowWidth && height == windowHeight
      ensures drops[..] == old(drops[..])
    {
      width, height := windowWidth, windowHeight;
    }

    /** One call of draw(): returns the glyphs painted and updates every
        column in index order against the current canvas height. */
    method Tick(glyphDraws: seq<real>, resetDraws: seq<real>) returns (frame: seq<Cell>)
      requires Valid()
      requires |glyphDraws| == columns && |resetDraws| == columns
      requires AllUnitDraws(glyphDraws) && AllUnitDraws(resetDraws)
      modifies drops
      ensures Valid()
      ensures frame == Frame(old(drops[..]), glyphDraws)
      ensures drops[..] == StepAll(old(drops[..]), height, resetDraws)
    {
      frame := [];
      var i := 0;
      while i < drops.Length
        invariant 0 <= i <= drops.Length
        invariant |frame| == i
        invariant forall k :: 0 <= k < i ==>
          frame[k] == Cell(k * FontSize, old(drops[k]) * FontSize, Chars[GlyphIndex(glyphDraws[k])])
        invariant forall k :: 0 <= k < i ==> drops[k] == Step(old(drops[k]), height, resetDraws[k])
        invariant forall k :: i <= k < drops.Length ==> drops[k] == old(drops[k])
      {
        var glyph := Chars[GlyphIndex(glyphDraws[i])];
        frame := frame + [Cell(i * FontSize, drops[i] * FontSize, glyph)];
        drops[i] := drops[i] + 1;
        if drops[i] * FontSize > height && resetDraws[i] > ResetThreshold {
          drops[i] := 0;
        }
        i := i + 1;
      }
    }
  }

  /** One column followed over several ticks; heights[j] is the canvas
      height at tick j (a resize may fall between ticks). A column that ends
      above the top edge has never been reset: it has only fallen. */
  function ColumnRun(d: int, heights: seq<nat>, us: seq<real>): (r: int)
    requires |heights| == |us|
    ensures r < 0 ==> r == d + |us|
    decreases |us|
  {
    if |us| == 0 then d else ColumnRun(Step(d, heights[0], us[0]), heights[1..], us[1..])
  }

  /** A column never moves up except by the reset: after k ticks it is either
      k rows lower, or it was reset at some tick and has fallen since. */
  lemma {:induction false} ColumnRunAdvancesOrRestarts(d: int, heights: seq<nat>, us: seq<real>)
    requires |heights| == |us|
    ensures ColumnRun(d, heights, us) == d + |us| || 0 <= ColumnRun(d, heights, us) < |us|
    decreases |us|
  {
    if |us| > 0 {
      var next := Step(d, heights[0], us[0]);
      ColumnRunAdvancesOrRestarts(next, heights[1..], us[1..]);
    }
  }

  /** A column whose glyph stays on the canvas advances exactly one row per tick. */
  lemma {:induction false} ColumnRunOnScreen(d: int, heights: seq<nat>, us: seq<real>)
    requires |heights| == |us|
    requires forall j :: 0 <= j < |us| ==> (d + j + 1) * FontSize <= heights[j]
    ensures ColumnRun(d, heights, us) == d + |us|
    decreases |us|
  {
    if |us| > 0 {
      var next := Step(d, heights[0], us[0]);
      assert next == d + 1;
      forall j | 0 <= j < |us| - 1
        ensures (next + j + 1) * FontSize <= heights[1..][j]
      {
        assert (d + (j + 1) + 1) * FontSize <= heights[j + 1];
      }
      ColumnRunOnScreen(next, heights[1..], us[1..]);
    }
  }

  /** A drop that starts above the top edge reaches row 0 before it can be
      reset, whatever the heights and draws. */
  lemma ColumnRunEntersBeforeReset(d: int, heights: seq<nat>, us: seq<real>)
    requires |heights| == |us|
    requires d + |us| <= 0
    ensures ColumnRun(d, heights, us) == d + |us|
  {
    forall j | 0 <= j < |us|
      ensures (d + j + 1) * FontSize <= heights[j]
    {
      assert d + j + 1 <= 0;
    }
    ColumnRunOnScreen(d, heights, us);
  }

  /** The inputs of one tick: the canvas height and one reset draw per column. */
  datatype TickInput = TickInput(height: nat, resets: seq<real>)

  predicate FitsColumns(ts: seq<TickInput>, n: nat) {
    forall t :: 0 <= t < |ts| ==> |ts[t].resets| == n
  }

  /** The drops after a sequence of ticks. */
  function RunTicks(ds: seq<int>, ts: seq<TickInput>): (r: seq<int>)
    requires FitsColumns(ts, |ds|)
    ensures |r| == |ds|
    decreases |ts|
  {
    if |ts| == 0 then ds else RunTicks(StepAll(ds, ts[0].height, ts[0].resets), ts[1..])
  }

  function Heights(ts: seq<TickInput>): seq<nat> {
    seq(|ts|, t requires 0 <= t < |ts| => ts[t].height)
  }

  function ResetsOf(ts: seq<TickInput>, i: nat): seq<real>
    requires forall t :: 0 <= t < |ts| ==> i < |ts[t].resets|
  {
    seq(|ts|, t requires 0 <= t < |ts| => ts[t].resets[i])
  }

  /** Columns evolve independently: after any number of ticks, column i
      depends only on its own start, the heights and its own reset draws. */
  lemma {:induction false} RunTicksColumnwise(ds: seq<int>, ts: seq<TickInput>, i: nat)
    requires FitsColumns(ts, |ds|) && i < |ds|
    ensures RunTicks(ds, ts)[i] == ColumnRun(ds[i], Heights(ts), ResetsOf(ts, i))
    decreases |ts|
  {
    if |ts| > 0 {
      var next := StepAll(ds, ts[0].height, ts[0].resets);
      assert Heights(ts)[1..] == Heights(ts[1..]);
      assert ResetsOf(ts, i)[1..] == ResetsOf(ts[1..], i);
      RunTicksColumnwise(next, ts[1..], i);
    }
  }
}

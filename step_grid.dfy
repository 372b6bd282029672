/** The step grid of the sequencer as a value: one row of boolean steps per
    channel. The page starts with four channels of sixteen steps, all off, and
    the only change it ever makes is to flip one step. */
module StepGrid {

  const ChannelCount: nat := 4
  const StepCount: nat := 16

  type Grid = seq<seq<bool>>

  /** The default shape: four channels, each of sixteen steps. */
  predicate WellShaped(g: Grid) {
    |g| == ChannelCount && forall c :: 0 <= c < |g| ==> |g[c]| == StepCount
  }

  /** `(channel, step)` addresses a cell of `g`. */
  predicate InRange(g: Grid, channel: nat, step: nat) {
    channel < |g| && step < |g[channel]|
  }

  /** `Array(n).fill(v)`: a row of `n` copies of `v`. */
  function Filled(n: nat, v: bool): (r: seq<bool>)
    ensures |r| == n
    ensures forall i :: 0 <= i < n ==> r[i] == v
  {
    if n == 0 then [] else Filled(n - 1, v) + [v]
  }

  /** The grid the page starts with: four separately filled rows. */
  function InitialSteps(): (g: Grid)
    ensures WellShaped(g)
    ensures forall c, s :: 0 <= c < |g| && 0 <= s < |g[c]| ==> !g[c][s]
  {
    [Filled(StepCount, false), Filled(StepCount, false),
     Filled(StepCount, false), Filled(StepCount, false)]
  }

  /** The grid after a click on `(channel, step)`: that one cell is negated,
      every other cell and every row length are as before. */
  function Toggled(g: Grid, channel: nat, step: nat): (r: Grid)
    requires InRange(g, channel, step)
    ensures |r| == |g|
    ensures forall c :: 0 <= c < |r| ==> |r[c]| == |g[c]|
    ensures r[channel][step] == !g[channel][step]
    ensures forall c, s :: 0 <= c < |g| && 0 <= s < |g[c]| && (c != channel || s != step) ==>
              r[c][s] == g[c][s]
  {
    g[channel := g[channel][step := !g[channel][step]]]
  }

  /** Two grids of the same shape that agree on every cell are equal. */
  lemma {:induction false} CellwiseEqual(a: Grid, b: Grid)
    requires |a| == |b|
    requires forall c :: 0 <= c < |a| ==> |a[c]| == |b[c]|
    requires forall c, s :: 0 <= c < |a| && 0 <= s < |a[c]| ==> a[c][s] == b[c][s]
    ensures a == b
  {
    forall c | 0 <= c < |a| ensures a[c] == b[c] {
      assert forall s :: 0 <= s < |a[c]| ==> a[c][s] == b[c][s];
    }
  }

  /** A click keeps the default shape. */
  lemma ToggledWellShaped(g: Grid, channel: nat, step: nat)
    requires WellShaped(g) && InRange(g, channel, step)
    ensures WellShaped(Toggled(g, channel, step))
  {
  }

  /** Clicking the same cell twice gives back the grid clicked on. */
  lemma {:induction false} ToggledTwice(g: Grid, channel: nat, step: nat)
    requires InRange(g, channel, step)
    ensures InRange(Toggled(g, channel, step), channel, step)
    ensures Toggled(Toggled(g, channel, step), channel, step) == g
  {
    var once := Toggled(g, channel, step);
    CellwiseEqual(Toggled(once, channel, step), g);
  }

  /** Clicks on two different cells commute. */
  lemma {:induction false} ToggledCommute(g: Grid, c1: nat, s1: nat, c2: nat, s2: nat)
    requires InRange(g, c1, s1) && InRange(g, c2, s2)
    ensures InRange(Toggled(g, c1, s1), c2, s2) && InRange(Toggled(g, c2, s2), c1, s1)
    ensures Toggled(Toggled(g, c1, s1), c2, s2) == Toggled(Toggled(g, c2, s2), c1, s1)
  {
    CellwiseEqual(Toggled(Toggled(g, c1, s1), c2, s2), Toggled(Toggled(g, c2, s2), c1, s1));
  }

  /** The first click on a fresh page, channel 0 step 3: that cell is on and
      the other 63 cells are still off. */
  lemma FirstClickOnFreshGrid()
    ensures var g := Toggled(InitialSteps(), 0, 3);
      WellShaped(g) && g[0][3] &&
      forall c, s :: 0 <= c < ChannelCount && 0 <= s < StepCount && (c, s) != (0, 3) ==> !g[c][s]
  {
  }
}

/** What the page draws from the grid: per channel, one fragment per step,
    holding a column separator before every fourth step except the first,
    then the step's button, which has the `active` class exactly when the
    step is on and whose click addresses that step's cell. */
module StepView {
  import opened StepGrid

  /** A step button: the cell its click handler addresses and its class list. */
  datatype StepButton = StepButton(channel: nat, step: nat, className: string)

  /** What one step of a channel draws: an optional separator, then its button. */
  datatype StepFragment = StepFragment(separator: bool, button: StepButton)

  /** A separator is drawn before step `step`. */
  predicate SeparatorBefore(step: nat) {
    step != 0 && step % 4 == 0
  }

  /** The class list ends in the `active` marker. */
  predicate MarkedActive(className: string) {
    |className| >= 6 && className[|className| - 6..] == "active"
  }

  /** The class list of a step button: always `step`, and `active` exactly
      when the step is on. */
  function StepClassName(on: bool): (r: string)
    ensures |r| >= 5 && r[..5] == "step "
    ensures MarkedActive(r) <==> on
  {
    "step " + (if on then "active" else "")
  }

  /** The fragments of one channel row, one per step, in step order. */
  function RenderChannel(channel: nat, row: seq<bool>): seq<StepFragment> {
    seq(|row|, k requires 0 <= k < |row| =>
      StepFragment(SeparatorBefore(k), StepButton(channel, k, StepClassName(row[k]))))
  }

  /** The whole grid, one row of fragments per channel. */
  function RenderGrid(g: Grid): seq<seq<StepFragment>> {
    seq(|g|, c requires 0 <= c < |g| => RenderChannel(c, g[c]))
  }

  /** The number of separators drawn by `fs`. */
  function SeparatorCount(fs: seq<StepFragment>): nat
    decreases |fs|
  {
    if fs == [] then 0
    else SeparatorCount(fs[..|fs| - 1]) + (if fs[|fs| - 1].separator then 1 else 0)
  }

  /** Step `k` of a channel draws a button marked `active` exactly when the
      cell is on. */
  lemma RenderChannelActive(channel: nat, row: seq<bool>)
    ensures |RenderChannel(channel, row)| == |row|
    ensures forall k :: 0 <= k < |row| ==>
              (MarkedActive(RenderChannel(channel, row)[k].button.className) <==> row[k])
  {
  }

  /** A channel of `n > 0` steps draws `(n - 1) / 4` separators. */
  lemma {:induction false} RenderChannelSeparators(channel: nat, row: seq<bool>)
    ensures SeparatorCount(RenderChannel(channel, row)) == if row == [] then 0 else (|row| - 1) / 4
    decreases |row|
  {
    if row != [] {
      var n := |row| - 1;
      var fs := RenderChannel(channel, row);
      assert fs[..n] == RenderChannel(channel, row[..n]);
      RenderChannelSeparators(channel, row[..n]);
      assert fs[n].separator == SeparatorBefore(n);
    }
  }

  /** A drawn sixteen-step channel has its separators before steps 4, 8 and 12
      and nowhere else, three in all. */
  lemma SixteenStepSeparators(channel: nat, row: seq<bool>)
    requires |row| == StepCount
    ensures |RenderChannel(channel, row)| == |row|
    ensures forall k :: 0 <= k < |row| ==>
              (RenderChannel(channel, row)[k].separator <==> k == 4 || k == 8 || k == 12)
    ensures SeparatorCount(RenderChannel(channel, row)) == 3
  {
    RenderChannelSeparators(channel, row);
  }

  /** Every button drawn for a grid addresses a cell of that grid, the one
      under which it is drawn, so a click never reaches the grid with an
      index outside it. */
  lemma ClickTargetsInRange(g: Grid)
    ensures |RenderGrid(g)| == |g|
    ensures forall c :: 0 <= c < |g| ==> |RenderGrid(g)[c]| == |g[c]|
    ensures forall c, k :: 0 <= c < |g| && 0 <= k < |RenderGrid(g)[c]| ==>
              var b := RenderGrid(g)[c][k].button;
              b.channel == c && b.step == k && InRange(g, b.channel, b.step)
  {
  }
}

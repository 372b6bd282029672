/** The `Sequencer` component's state: the outer array of channel rows and
    the click handler that republishes a shallow copy of it after flipping
    one cell of a row in place. */
module SequencerState {
  import opened StepGrid
  import StepView

  class Sequencer {
    /** The published `steps` state: one array of steps per channel. */
    var steps: array<array<bool>>
    /** The grid the arrays hold, as a value. */
    ghost var Contents: Grid

    /** The arrays hold `Contents`, in the default shape, and no two channels
        share a row array (each row comes from its own `Array(16)`). */
    ghost predicate Valid()
      reads this, steps, steps[..]
    {
      steps.Length == |Contents| && WellShaped(Contents) &&
      (forall c :: 0 <= c < steps.Length ==> steps[c][..] == Contents[c]) &&
      (forall c, d :: 0 <= c < d < steps.Length ==> steps[c] != steps[d])
    }

    /** The initial state: four fresh rows of sixteen steps, all off. */
    constructor ()
      ensures Valid() && fresh(steps)
      ensures forall c :: 0 <= c < steps.Length ==> fresh(steps[c])
      ensures Contents == InitialSteps()
    {
      var r0 := new bool[StepCount](_ => false);
      var r1 := new bool[StepCount](_ => false);
      var r2 := new bool[StepCount](_ => false);
      var r3 := new bool[StepCount](_ => false);
      var rows := new array<bool>[ChannelCount][r0, r1, r2, r3];
      var grid := InitialSteps();
      forall c | 0 <= c < rows.Length ensures rows[c][..] == grid[c] {
        assert forall s :: 0 <= s < StepCount ==> rows[c][s] == grid[c][s];
      }
      steps, Contents := rows, grid;
    }

    /** A click on `(channel, stepIndex)`: a new outer array holding the same
        row arrays is published, and the addressed cell of the shared row is
        negated in place. Every other cell keeps its value. The branch that
        installs an empty row for a missing channel is never taken here,
        because `Valid()` keeps every channel's row present; it is modelled
        in `JsSemantics.HandleClick`. */
    method HandleClick(channel: nat, stepIndex: nat)
      requires Valid() && InRange(Contents, channel, stepIndex)
      modifies this, steps[channel]
      ensures Valid() && fresh(steps)
      ensures steps.Length == old(steps.Length)
      ensures forall c :: 0 <= c < steps.Length ==> steps[c] == old(steps[c])
      ensures Contents == Toggled(old(Contents), channel, stepIndex)
    {
      var updated := new array<bool>[steps.Length](c reads this, steps requires 0 <= c < steps.Length => steps[c]);
      var row := updated[channel];
      row[stepIndex] := !row[stepIndex];
      steps := updated;
      Contents := Toggled(Contents, channel, stepIndex);
    }

    /** What the component draws from the current state. */
    method Render() returns (view: seq<seq<StepView.StepFragment>>)
      requires Valid()
      ensures view == StepView.RenderGrid(Contents)
    {
      var g := seq(steps.Length, c reads this, steps, steps[..] requires 0 <= c < steps.Length => steps[c][..]);
      assert g == Contents;
      view := StepView.RenderGrid(g);
    }
  }
}

# Step-grid store of the `sequent` step sequencer

This project models the `Sequencer` component of `src/pages/index.tsx`.
Its state is a grid of boolean steps: four channels of sixteen steps each,
all off at start. Its one mutation is the click handler `handleClick(channel,
stepIndex)`. The handler makes a shallow copy of the outer array. If the
channel's row is missing, it installs an empty row. It then negates the
addressed step of that row in place and publishes the copy. The model also
covers the two rules the page uses to draw the grid:

- a column separator stands before every fourth step except the first;
- a step's button carries the `active` class exactly when the step is on.

Files:

- `step_grid.dfy` (module `StepGrid`): the grid as a value. It holds the
  initial grid (`Filled`, `InitialSteps`) and the effect of one click
  (`Toggled`), with lemmas on shape, frame, involution and commutation.
- `sequencer.dfy` (module `SequencerState`): the class `Sequencer`. It holds
  the published outer `array<array<bool>>`. `HandleClick` allocates the copied
  outer array, flips the cell in the shared row and publishes the copy. It is
  proved against `StepGrid.Toggled`. `Render` reads the arrays into the
  drawn view.
- `step_view.dfy` (module `StepView`): what `steps.map(...)` draws. It gives
  one fragment per step, each an optional separator and a button. It holds
  the separator rule, the class list and the click targets.
- `js_semantics.dfy` (module `JsSemantics`): the handler under JavaScript's
  array rules, where rows and steps may be missing. This is where the
  missing-row branch (lines 18-20) is modelled. On the dense grid the page
  holds, the handler is proved equal to `StepGrid.Toggled`.

Points worth knowing about the source:

- The shape is fixed at 4 × 16 (lines 9-14). There is no sized
  constructor and no bounds-checked read.
- The handler checks no bounds. Under JavaScript's rules an array index
  (a whole number below 2^32 − 1) at or past the end of an array grows that
  array (see `JsSemantics.JsArray.Set` and `JsSemantics.HandleClickMissingRow`).
  The class model instead requires in-range indices. The page only produces
  such indices (`StepView.ClickTargetsInRange`).
- Channels are stored in an array indexed by channel number.

## Model

| member | source | states |
|---|---|---|
| `StepGrid.Filled` | src/pages/index.tsx:10-13 | `Array(16).fill(false)`: the row has exactly `n` entries and every entry is the fill value |
| `StepGrid.InitialSteps` | src/pages/index.tsx:9-14 | the initial grid has 4 channels of 16 steps each, and every cell is `false` |
| `StepGrid.Toggled` | src/pages/index.tsx:16-23 | after a click the addressed cell is the negation of its old value; every other cell, in the same channel and in others, is unchanged; the number of channels and every row length are preserved |
| `StepGrid.ToggledWellShaped` | src/pages/index.tsx:17-21 | a click on an in-range cell keeps the 4 × 16 shape |
| `StepGrid.ToggledTwice` | src/pages/index.tsx:21 | clicking the same cell twice restores the original grid |
| `StepGrid.ToggledCommute` | src/pages/index.tsx:16-23 | clicks on two cells give the same grid in either order |
| `StepGrid.FirstClickOnFreshGrid` | src/pages/index.tsx:9-23 | on the initial grid, a click on channel 0, step 3 turns that cell on and leaves the other 63 cells off |
| `SequencerState.Sequencer.constructor` | src/pages/index.tsx:9-14 | the state starts as four fresh, distinct row arrays holding `InitialSteps()` |
| `SequencerState.Sequencer.HandleClick` | src/pages/index.tsx:16-23 | publishes a fresh outer array holding the same row arrays; the grid becomes `Toggled(old grid, channel, stepIndex)`; only the addressed row is written; the invariant (shape, distinct rows) is kept |
| `SequencerState.Sequencer.Render` | src/pages/index.tsx:25-46 | the drawn view is the rendering of the grid the arrays currently hold |
| `JsSemantics.HandleClick` | src/pages/index.tsx:16-23 | the handler under JavaScript's array rules, missing-row branch included; its properties are carried by `HandleClickFlips`, `HandleClickMissingRow`, `HandleClickValid`, `HandleClickTwice` and `HandleClickOnDenseGrid` |
| `StepView.SeparatorBefore` | src/pages/index.tsx:31 | a separator is drawn before step `i` exactly when `i != 0 && i % 4 == 0`; its consequences are carried by `RenderChannelSeparators` and `SixteenStepSeparators` |
| `StepView.RenderChannel` | src/pages/index.tsx:29-42 | the inner `channel.map`: one fragment per step, in step order; its properties are carried by `RenderChannelActive`, `RenderChannelSeparators` and `SixteenStepSeparators` |
| `StepView.RenderGrid` | src/pages/index.tsx:27-44 | the outer `steps.map`: one row of fragments per channel; its properties are carried by `ClickTargetsInRange` and `Sequencer.Render` |
| `StepView.StepClassName` | src/pages/index.tsx:38 | the class list always starts with `step` and ends with the `active` marker exactly when the step is on |
| `StepView.RenderChannelActive` | src/pages/index.tsx:29-40 | a channel draws one button per step, and button `k` is marked `active` exactly when cell `k` is `true` |
| `StepView.RenderChannelSeparators` | src/pages/index.tsx:29-36 | a channel of `n > 0` steps draws `(n - 1) / 4` separators, and an empty channel draws none |
| `StepView.SixteenStepSeparators` | src/pages/index.tsx:31 | in a drawn 16-step channel, fragment `k` holds a separator exactly when `k` is 4, 8 or 12, so three separators in all |
| `StepView.ClickTargetsInRange` | src/pages/index.tsx:27-40 | every drawn button is wired to its own channel and step, and that cell lies inside the grid |
| `JsSemantics.HandleClickFlips` | src/pages/index.tsx:16-23 | for any arrays, even sparse ones, the addressed cell afterwards holds the negation of what it read (a missing value reads as false), and every other cell reads as before |
| `JsSemantics.HandleClickMissingRow` | src/pages/index.tsx:18-21 | when the channel's row is absent, the handler installs a row whose only filled slot is the addressed step, set to `true`, with length `stepIndex + 1`; other channels are untouched |
| `JsSemantics.HandleClickValid` | src/pages/index.tsx:16-23 | a click keeps every array's filled slots below its length |
| `JsSemantics.HandleClickTwice` | src/pages/index.tsx:21 | two clicks on a cell that holds a value give back the original arrays |
| `JsSemantics.HandleClickOnDenseGrid` | src/pages/index.tsx:16-23 | on a dense grid with in-range indices, the JavaScript handler computes exactly `StepGrid.Toggled` |

## Left out

- React plumbing is not modelled: `useState`, the scheduling of `setSteps`, JSX markup, `key` props, the `App` wrapper and the CSS class strings other than the `active` marker. Publishing the copy is modelled as assigning the `steps` field.
- The imports `Head`, `Link` and `api` are not modelled. The component never uses them.
- The link between React state snapshots is not modelled. The handler writes into a row that the previous state also holds. `HandleClick` states that the rows are shared, but it does not relate the old and new snapshots any further.
- `SequencerState.Sequencer.HandleClick`: requires in-range indices. The class invariant keeps every row present, so the missing-row branch never runs there. That branch and out-of-range indices are modelled only at the value level, in `JsSemantics.HandleClick`.
- `JsSemantics.HandleClick`: indices are natural numbers with no upper limit. Negative, fractional and NaN arguments are not modelled, and neither are whole numbers of 2^32 − 1 or more. In JavaScript each of these stores a plain property that is not an array slot: it does not change `length` and `map` never draws it. The model instead treats the last kind as a slot and grows `length` to the index plus one (also in `JsSemantics.HandleClickMissingRow`). The page never produces such indices.
- `JsSemantics.HandleClick` ignores one JavaScript distinction. A hole and a slot holding `undefined` both read as missing, so the spread copy is modelled as the same value.
- The tempo converter, playback clock, cursor column, tempo control and drag-paint input are not modelled. `src/pages/index.tsx` has no code for any of them, and no other source file is part of this model.
- There is no sized constructor and no bounds-checked read in the source, so neither is modelled. Reads happen only while drawing, which `Render` covers.

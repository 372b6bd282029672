/** The click handler under JavaScript's array rules, where a channel row or
    a step may be missing. This is the level at which the branch that
    installs an empty row for an absent channel exists; on the dense grid
    the page actually holds, the handler agrees with `StepGrid.Toggled`. */
module JsSemantics {
  import opened StepGrid

  datatype Option<T> = None | Some(value: T)

  /** A JavaScript array: its `length` and the slots that hold a value. A
      hole, an index past the end and a slot holding `undefined` all read
      as `None`; the handler never tells them apart. */
  datatype JsArray<T> = JsArray(length: nat, slots: map<nat, T>) {

    /** Every filled slot lies below `length`. */
    predicate Valid() {
      forall i :: i in slots ==> i < length
    }

    /** `a[i]`. */
    function Get(i: nat): Option<T> {
      if i in slots then Some(slots[i]) else None
    }

    /** `a[i] = v`: fills slot `i`, growing `length` past `i` if needed. */
    function Set(i: nat, v: T): (r: JsArray<T>)
      ensures r.Get(i) == Some(v)
      ensures forall j: nat :: j != i ==> r.Get(j) == Get(j)
      ensures r.length == if i < length then length else i + 1
      ensures Valid() ==> r.Valid()
    {
      JsArray(if i < length then length else i + 1, slots[i := v])
    }
  }

  /** The empty array literal `[]`. */
  function Empty<T>(): (a: JsArray<T>)
    ensures a.Valid() && a.length == 0
    ensures forall i: nat :: a.Get(i) == None
  {
    JsArray(0, map[])
  }

  /** A dense array holding the elements of `s`. */
  function FromSeq<T>(s: seq<T>): (a: JsArray<T>)
    ensures a.Valid() && a.length == |s|
    ensures forall i: nat :: a.Get(i) == if i < |s| then Some(s[i]) else None
  {
    JsArray(|s|, map i: nat | i < |s| :: s[i])
  }

  /** The grid as JavaScript holds it: dense, no row and no step missing. */
  function Lift(g: Grid): JsArray<JsArray<bool>> {
    FromSeq(seq(|g|, c requires 0 <= c < |g| => FromSeq(g[c])))
  }

  /** The outer array and every row in it are `Valid`. */
  predicate GridValid(steps: JsArray<JsArray<bool>>) {
    steps.Valid() && forall c :: c in steps.slots ==> steps.slots[c].Valid()
  }

  /** `steps[channel][step]`, `None` when the row or the step is missing. */
  function Cell(steps: JsArray<JsArray<bool>>, channel: nat, step: nat): Option<bool> {
    match steps.Get(channel)
    case None => None
    case Some(row) => row.Get(step)
  }

  /** The `!` operator on a read value: a missing value is falsy. */
  function Not(v: Option<bool>): bool {
    match v
    case None => true
    case Some(b) => !b
  }

  /** `handleClick(channel, stepIndex)`: copy the outer array, install `[]`
      when the row is missing, then negate the addressed step of that row.
      Spreading an array with holes fills them with `undefined`, which reads
      as a hole does, so the copy is the same value. */
  function HandleClick(steps: JsArray<JsArray<bool>>, channel: nat, stepIndex: nat): JsArray<JsArray<bool>> {
    var copy := steps;
    var withRow := if copy.Get(channel).None? then copy.Set(channel, Empty()) else copy;
    var row := withRow.Get(channel).value;
    withRow.Set(channel, row.Set(stepIndex, Not(row.Get(stepIndex))))
  }

  /** Whatever the arrays hold, a click fills the addressed cell with the
      negation of what it read there, and every other cell reads as before. */
  lemma HandleClickFlips(steps: JsArray<JsArray<bool>>, channel: nat, stepIndex: nat)
    ensures Cell(HandleClick(steps, channel, stepIndex), channel, stepIndex) == Some(Not(Cell(steps, channel, stepIndex)))
    ensures forall c: nat, s: nat :: (c != channel || s != stepIndex) ==>
              Cell(HandleClick(steps, channel, stepIndex), c, s) == Cell(steps, c, s)
  {
  }

  /** A click on a channel with no row installs a row whose only filled slot
      is the addressed step, set to `true`, and leaves other channels alone. */
  lemma HandleClickMissingRow(steps: JsArray<JsArray<bool>>, channel: nat, stepIndex: nat)
    requires steps.Get(channel) == None
    ensures HandleClick(steps, channel, stepIndex).Get(channel) == Some(JsArray(stepIndex + 1, map[stepIndex := true]))
    ensures forall c: nat :: c != channel ==> HandleClick(steps, channel, stepIndex).Get(c) == steps.Get(c)
  {
  }

  /** A click keeps every array `Valid`. */
  lemma HandleClickValid(steps: JsArray<JsArray<bool>>, channel: nat, stepIndex: nat)
    requires GridValid(steps)
    ensures GridValid(HandleClick(steps, channel, stepIndex))
  {
  }

  /** Two clicks on a cell that holds a value give back the arrays clicked on. */
  lemma HandleClickTwice(steps: JsArray<JsArray<bool>>, channel: nat, stepIndex: nat)
    requires GridValid(steps) && Cell(steps, channel, stepIndex).Some?
    ensures HandleClick(HandleClick(steps, channel, stepIndex), channel, stepIndex) == steps
  {
    var row := steps.slots[channel];
    var once := HandleClick(steps, channel, stepIndex);
    var rowOnce := row.Set(stepIndex, !row.slots[stepIndex]);
    assert once == steps.Set(channel, rowOnce);
    var rowTwice := rowOnce.Set(stepIndex, row.slots[stepIndex]);
    assert rowTwice.slots == row.slots;
    assert rowTwice == row;
    assert HandleClick(once, channel, stepIndex) == once.Set(channel, rowTwice);
    assert once.Set(channel, row).slots == steps.slots;
  }

  /** On the dense grid the page holds, with indices drawn from the grid,
      the handler computes exactly `Toggled`. */
  lemma HandleClickOnDenseGrid(g: Grid, channel: nat, stepIndex: nat)
    requires InRange(g, channel, stepIndex)
    ensures HandleClick(Lift(g), channel, stepIndex) == Lift(Toggled(g, channel, stepIndex))
  {
    var t := Toggled(g, channel, stepIndex);
    var rows := seq(|g|, c requires 0 <= c < |g| => FromSeq(g[c]));
    var rowsT := seq(|t|, c requires 0 <= c < |t| => FromSeq(t[c]));
    var row := FromSeq(g[channel]);
    assert Lift(g).Get(channel) == Some(row);
    var flipped := row.Set(stepIndex, !g[channel][stepIndex]);
    assert flipped.slots == FromSeq(t[channel]).slots;
    assert flipped == rowsT[channel];
    var r := HandleClick(Lift(g), channel, stepIndex);
    assert r == Lift(g).Set(channel, flipped);
    assert r.slots == Lift(t).slots by {
      forall c: nat | c < |g| && c != channel ensures rows[c] == rowsT[c] {
        assert g[c] == t[c];
      }
    }
  }
}

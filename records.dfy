/**
 * The state of qubits and couplers as plain values. The records are exactly
 * what Qubit.toJSON, Coupler.toJSON and Chip.toJSON produce in sketch.js, and
 * they double as the abstract view of the mutable Qubit, Coupler and Chip
 * objects. The functions below are the per-element transitions those objects
 * perform (select, reset, toggle, annotate).
 */
module Records {
  import opened Common

  /**
   * The fields every qubit and coupler carries besides its identity:
   * `disabled`, `selectGroup` (null = not selected) and `attribute`
   * (undefined = None).
   */
  datatype Marks = Marks(disabled: bool, selectGroup: Option<nat>, attribute: Option<string>)

  /** The marks of a freshly constructed Qubit or Coupler. */
  const Fresh := Marks(false, None, None)

  /** Qubit.toJSON: {id, x, y, disabled, select_group, attribute}. */
  datatype QubitState = QubitState(id: int, x: int, y: int, marks: Marks)

  /** Coupler.toJSON: endpoints by id, {qubitA, qubitB, disabled, select_group, attribute}. */
  datatype CouplerState = CouplerState(qubitA: int, qubitB: int, marks: Marks)

  /** Chip.toJSON: the construction parameters and every element's record. */
  datatype ChipRecord = ChipRecord(
    width: int, height: int, qubitStartIdx: int, qubitNameLength: int, useOriginAsQubit: bool,
    qubits: seq<QubitState>, couplers: seq<CouplerState>)

  /** Qubit.selected / Coupler.selected. */
  predicate Selected(m: Marks) {
    m.selectGroup.Some?
  }

  /**
   * handleSelect(doNotReset) with the group read from the group selector:
   * a disabled element is left alone; a second click deselects; otherwise
   * (always when dragging) the element joins `group`.
   */
  function Select(m: Marks, doNotReset: bool, group: nat): (r: Marks)
    ensures m.disabled ==> r == m
    ensures !m.disabled && !doNotReset && Selected(m) ==> r == m.(selectGroup := None)
    ensures !m.disabled && (doNotReset || !Selected(m)) ==> r == m.(selectGroup := Some(group))
  {
    if m.disabled then m
    else if !doNotReset && Selected(m) then m.(selectGroup := None)
    else m.(selectGroup := Some(group))
  }

  /** reset(): drop the group and the attribute, keep `disabled`. */
  function Clear(m: Marks): (r: Marks)
    ensures r.disabled == m.disabled && !Selected(r) && r.attribute.None?
  {
    Marks(m.disabled, None, None)
  }

  /** A Topology-mode click: flip `disabled` and nothing else. */
  function ToggleDisabled(m: Marks): (r: Marks)
    ensures r.disabled != m.disabled
    ensures r.selectGroup == m.selectGroup && r.attribute == m.attribute
  {
    m.(disabled := !m.disabled)
  }

  /**
   * An attribute-mode click with the prompt's answer (None = cancelled):
   * the empty answer deselects, a cancel changes nothing, any other text puts
   * the element in group 0 with that attribute. `disabled` is not consulted.
   */
  function Annotate(m: Marks, answer: Option<string>): (r: Marks)
    ensures answer.None? ==> r == m
    ensures answer == Some("") ==> r == Clear(m)
    ensures answer.Some? && answer.value != "" ==>
      r == Marks(m.disabled, Some(0), Some(answer.value))
  {
    match answer
    case None => m
    case Some(text) =>
      if text == "" then Marks(m.disabled, None, None) else Marks(m.disabled, Some(0), Some(text))
  }

  /** Clicking an enabled, unselected element twice in list mode restores it. */
  lemma ClickTwiceRestores(m: Marks, group: nat)
    requires !m.disabled && !Selected(m)
    ensures Select(Select(m, false, group), false, group) == m
  {
  }

  /** Dragging over an element twice is the same as dragging once. */
  lemma DragIdempotent(m: Marks, group: nat)
    ensures Select(Select(m, true, group), true, group) == Select(m, true, group)
  {
  }

  /** reset() is idempotent and commutes with toggling `disabled`. */
  lemma ClearIdempotent(m: Marks)
    ensures Clear(Clear(m)) == Clear(m)
    ensures Clear(ToggleDisabled(m)) == ToggleDisabled(Clear(m))
  {
  }

  // ---------------------------------------------------------------------------
  // Whole-chip views used by the statistics and by Chip.reset.

  function QubitMarks(qs: seq<QubitState>): (r: seq<Marks>)
    ensures |r| == |qs| && forall k :: 0 <= k < |qs| ==> r[k] == qs[k].marks
  {
    seq(|qs|, k requires 0 <= k < |qs| => qs[k].marks)
  }

  function CouplerMarks(cs: seq<CouplerState>): (r: seq<Marks>)
    ensures |r| == |cs| && forall k :: 0 <= k < |cs| ==> r[k] == cs[k].marks
  {
    seq(|cs|, k requires 0 <= k < |cs| => cs[k].marks)
  }

  /** numActiveQubits / numActiveCouplers: filter(e => !e.disabled).length. */
  function CountActive(ms: seq<Marks>): nat {
    if ms == [] then 0 else (if ms[0].disabled then 0 else 1) + CountActive(ms[1..])
  }

  /** The elements the statistics panel reports as disabled. */
  function CountDisabled(ms: seq<Marks>): nat {
    if ms == [] then 0 else (if ms[0].disabled then 1 else 0) + CountDisabled(ms[1..])
  }

  /** numSelectedQubits / numSelectedCouplers: filter(e => e.selected()).length. */
  function CountSelected(ms: seq<Marks>): nat {
    if ms == [] then 0 else (if Selected(ms[0]) then 1 else 0) + CountSelected(ms[1..])
  }

  /** The statistics panel's "Disabled" figure, total minus active, counts the disabled elements. */
  lemma {:induction false} ActivePlusDisabled(ms: seq<Marks>)
    ensures CountActive(ms) + CountDisabled(ms) == |ms|
    ensures CountSelected(ms) <= |ms|
  {
    if ms != [] {
      ActivePlusDisabled(ms[1..]);
    }
  }

  function ClearAll(ms: seq<Marks>): (r: seq<Marks>)
    ensures |r| == |ms| && forall k :: 0 <= k < |ms| ==> r[k] == Clear(ms[k])
  {
    seq(|ms|, k requires 0 <= k < |ms| => Clear(ms[k]))
  }

  /** After a reset nothing is selected and the same elements are active. */
  lemma {:induction false} ResetCounts(ms: seq<Marks>)
    ensures CountSelected(ClearAll(ms)) == 0
    ensures CountActive(ClearAll(ms)) == CountActive(ms)
  {
    if ms != [] {
      ResetCounts(ms[1..]);
      assert ClearAll(ms)[1..] == ClearAll(ms[1..]);
    }
  }

  /** The qubits after Chip.reset: every qubit's marks cleared. */
  function ResetQubits(qs: seq<QubitState>): (r: seq<QubitState>)
    ensures |r| == |qs| && forall k :: 0 <= k < |qs| ==> r[k] == qs[k].(marks := Clear(qs[k].marks))
  {
    seq(|qs|, k requires 0 <= k < |qs| => qs[k].(marks := Clear(qs[k].marks)))
  }

  /** The couplers after Chip.reset. */
  function ResetCouplers(cs: seq<CouplerState>): (r: seq<CouplerState>)
    ensures |r| == |cs| && forall k :: 0 <= k < |cs| ==> r[k] == cs[k].(marks := Clear(cs[k].marks))
  {
    seq(|cs|, k requires 0 <= k < |cs| => cs[k].(marks := Clear(cs[k].marks)))
  }

  /** Chip.reset is idempotent and leaves ids, coordinates and `disabled` alone. */
  lemma ResetIdempotent(qs: seq<QubitState>, cs: seq<CouplerState>)
    ensures ResetQubits(ResetQubits(qs)) == ResetQubits(qs)
    ensures ResetCouplers(ResetCouplers(cs)) == ResetCouplers(cs)
    ensures QubitMarks(ResetQubits(qs)) == ClearAll(QubitMarks(qs))
    ensures CouplerMarks(ResetCouplers(cs)) == ClearAll(CouplerMarks(cs))
  {
  }
}

/**
 * The chip-level effects of Chip.handleClick and Chip.handleDrag, on the
 * records. Pixel hit-testing is abstracted away: a click comes with the
 * index of the first hovered qubit and of the first hovered coupler, and a
 * drag with a rectangle in lattice coordinates.
 */
module Editing {
  import opened Common
  import opened Records
  import Modes

  /** A selection rectangle in lattice coordinates, bounds included. */
  datatype Box = Box(minX: int, minY: int, maxX: int, maxY: int)

  /** Qubit.isSelected: the point lies in the rectangle. */
  predicate InBox(box: Box, x: int, y: int) {
    box.minX <= x <= box.maxX && box.minY <= y <= box.maxY
  }

  /** The modes in which handleClick looks at the qubits first. */
  predicate QubitClickable(mode: Modes.Mode) {
    mode == Modes.Topology || mode == Modes.Qubit || mode == Modes.QubitAttr
  }

  /** The modes in which handleClick goes on to the couplers. */
  predicate CouplerClickable(mode: Modes.Mode) {
    mode == Modes.Topology || mode == Modes.Coupler || mode == Modes.CouplerAttr
  }

  /** What a click does to the element it hits: toggle, select, or annotate with the prompt's answer. */
  function ClickMarks(mode: Modes.Mode, m: Marks, group: nat, answer: Option<string>): Marks {
    if mode == Modes.Topology then ToggleDisabled(m)
    else if Modes.IsListMode(mode) then Select(m, false, group)
    else Annotate(m, answer)
  }

  /**
   * handleClick: a hovered qubit takes the click in Topology, Qubit and
   * QubitAttr mode; otherwise a hovered coupler takes it in Topology, Coupler
   * and CouplerAttr mode. Only the element clicked changes, and never its
   * identity.
   */
  function Click(r: ChipRecord, mode: Modes.Mode, qubitHit: Option<nat>, couplerHit: Option<nat>,
                 group: nat, answer: Option<string>): (r': ChipRecord)
    requires qubitHit.Some? ==> qubitHit.value < |r.qubits|
    requires couplerHit.Some? ==> couplerHit.value < |r.couplers|
    ensures r'.width == r.width && r'.height == r.height && r'.qubitStartIdx == r.qubitStartIdx
    ensures r'.qubitNameLength == r.qubitNameLength && r'.useOriginAsQubit == r.useOriginAsQubit
    ensures |r'.qubits| == |r.qubits| && |r'.couplers| == |r.couplers|
    ensures forall k :: 0 <= k < |r.qubits| ==>
      r'.qubits[k].id == r.qubits[k].id && r'.qubits[k].x == r.qubits[k].x && r'.qubits[k].y == r.qubits[k].y
    ensures forall k :: 0 <= k < |r.couplers| ==>
      r'.couplers[k].qubitA == r.couplers[k].qubitA && r'.couplers[k].qubitB == r.couplers[k].qubitB
    ensures forall k :: 0 <= k < |r.qubits| && qubitHit != Some(k) ==> r'.qubits[k] == r.qubits[k]
    ensures forall k :: 0 <= k < |r.couplers| && couplerHit != Some(k) ==> r'.couplers[k] == r.couplers[k]
    ensures QubitClickable(mode) && qubitHit.Some? ==> r'.couplers == r.couplers
    ensures !QubitClickable(mode) ==> r'.qubits == r.qubits
    ensures !CouplerClickable(mode) ==> r'.couplers == r.couplers
  {
    if QubitClickable(mode) && qubitHit.Some? then
      var i := qubitHit.value;
      r.(qubits := r.qubits[i := r.qubits[i].(marks := ClickMarks(mode, r.qubits[i].marks, group, answer))])
    else if CouplerClickable(mode) && couplerHit.Some? then
      var j := couplerHit.value;
      r.(couplers := r.couplers[j := r.couplers[j].(marks := ClickMarks(mode, r.couplers[j].marks, group, answer))])
    else r
  }

  /** Two Topology-mode clicks on the same spot undo each other. */
  lemma TopologyClickTwice(r: ChipRecord, qubitHit: Option<nat>, couplerHit: Option<nat>, group: nat, answer: Option<string>)
    requires qubitHit.Some? ==> qubitHit.value < |r.qubits|
    requires couplerHit.Some? ==> couplerHit.value < |r.couplers|
    ensures Click(Click(r, Modes.Topology, qubitHit, couplerHit, group, answer), Modes.Topology, qubitHit, couplerHit, group, answer) == r
  {
    var once := Click(r, Modes.Topology, qubitHit, couplerHit, group, answer);
    var twice := Click(once, Modes.Topology, qubitHit, couplerHit, group, answer);
    if qubitHit.Some? {
      assert twice.qubits == r.qubits;
    } else if couplerHit.Some? {
      assert twice.couplers == r.couplers;
    }
  }

  /** In Qubit or Coupler mode a click on a disabled element changes nothing. */
  lemma DisabledIgnoresSelection(r: ChipRecord, mode: Modes.Mode, qubitHit: Option<nat>, couplerHit: Option<nat>,
                                 group: nat, answer: Option<string>)
    requires Modes.IsListMode(mode)
    requires qubitHit.Some? ==> qubitHit.value < |r.qubits| && r.qubits[qubitHit.value].marks.disabled
    requires couplerHit.Some? ==> couplerHit.value < |r.couplers| && r.couplers[couplerHit.value].marks.disabled
    ensures Click(r, mode, qubitHit, couplerHit, group, answer) == r
  {
    var r' := Click(r, mode, qubitHit, couplerHit, group, answer);
    if QubitClickable(mode) && qubitHit.Some? {
      assert r'.qubits == r.qubits;
    } else if CouplerClickable(mode) && couplerHit.Some? {
      assert r'.couplers == r.couplers;
    }
  }

  /** An attribute-mode click annotates even a disabled qubit. */
  lemma AttributeIgnoresDisabled(r: ChipRecord, i: nat, text: string)
    requires i < |r.qubits| && r.qubits[i].marks.disabled && text != ""
    ensures Click(r, Modes.QubitAttr, Some(i), None, 0, Some(text)).qubits[i].marks == Marks(true, Some(0), Some(text))
  {
  }

  lemma {:induction false} CountActiveUpdate(ms: seq<Marks>, i: int, m: Marks)
    requires 0 <= i < |ms|
    ensures CountActive(ms[i := m]) ==
      CountActive(ms) - (if ms[i].disabled then 0 else 1) + (if m.disabled then 0 else 1)
  {
    if i > 0 {
      CountActiveUpdate(ms[1..], i - 1, m);
      assert ms[i := m][1..] == ms[1..][i - 1 := m];
    } else {
      assert ms[i := m][1..] == ms[1..];
    }
  }

  /** A Topology-mode click on a qubit moves the active-qubit count by one, up or down. */
  lemma ToggleMovesActiveCount(r: ChipRecord, i: nat, couplerHit: Option<nat>, group: nat, answer: Option<string>)
    requires i < |r.qubits|
    requires couplerHit.Some? ==> couplerHit.value < |r.couplers|
    ensures var r' := Click(r, Modes.Topology, Some(i), couplerHit, group, answer);
      CountActive(QubitMarks(r'.qubits)) ==
        CountActive(QubitMarks(r.qubits)) + (if r.qubits[i].marks.disabled then 1 else -1)
  {
    var r' := Click(r, Modes.Topology, Some(i), couplerHit, group, answer);
    var ms := QubitMarks(r.qubits);
    assert QubitMarks(r'.qubits) == ms[i := ToggleDisabled(ms[i])];
    CountActiveUpdate(ms, i, ToggleDisabled(ms[i]));
  }

  // ---------------------------------------------------------------------------
  // Dragging.

  /** handleDrag in Qubit mode: every qubit in the box joins the group, unless disabled. */
  function DragQubits(qs: seq<QubitState>, box: Box, group: nat): (r: seq<QubitState>)
    ensures |r| == |qs|
    ensures forall k :: 0 <= k < |qs| ==> r[k].id == qs[k].id && r[k].x == qs[k].x && r[k].y == qs[k].y
    ensures forall k :: 0 <= k < |qs| ==>
      r[k].marks == if InBox(box, qs[k].x, qs[k].y) then Select(qs[k].marks, true, group) else qs[k].marks
  {
    seq(|qs|, k requires 0 <= k < |qs| =>
      if InBox(box, qs[k].x, qs[k].y) then qs[k].(marks := Select(qs[k].marks, true, group)) else qs[k])
  }

  /** handleDrag in the other modes: every coupler with an endpoint in the box joins the group, unless disabled. */
  function DragCouplers(cs: seq<CouplerState>, hits: seq<bool>, group: nat): (r: seq<CouplerState>)
    requires |hits| == |cs|
    ensures |r| == |cs|
    ensures forall k :: 0 <= k < |cs| ==> r[k].qubitA == cs[k].qubitA && r[k].qubitB == cs[k].qubitB
    ensures forall k :: 0 <= k < |cs| ==>
      r[k].marks == if hits[k] then Select(cs[k].marks, true, group) else cs[k].marks
  {
    seq(|cs|, k requires 0 <= k < |cs| =>
      if hits[k] then cs[k].(marks := Select(cs[k].marks, true, group)) else cs[k])
  }

  /** Dragging never deselects: afterwards every enabled qubit in the box is in the group, and the rest are as they were. */
  lemma DragSelectsBox(qs: seq<QubitState>, box: Box, group: nat)
    ensures var r := DragQubits(qs, box, group);
      forall k :: 0 <= k < |qs| ==>
        if InBox(box, qs[k].x, qs[k].y) && !qs[k].marks.disabled then r[k].marks.selectGroup == Some(group)
        else r[k] == qs[k]
  {
  }

  /** Dragging the same box twice is dragging it once. */
  lemma DragTwice(qs: seq<QubitState>, cs: seq<CouplerState>, hits: seq<bool>, box: Box, group: nat)
    requires |hits| == |cs|
    ensures DragQubits(DragQubits(qs, box, group), box, group) == DragQubits(qs, box, group)
    ensures DragCouplers(DragCouplers(cs, hits, group), hits, group) == DragCouplers(cs, hits, group)
  {
    var once := DragQubits(qs, box, group);
    forall k | 0 <= k < |qs| ensures DragQubits(once, box, group)[k] == once[k] {
      DragIdempotent(qs[k].marks, group);
    }
    var conce := DragCouplers(cs, hits, group);
    forall k | 0 <= k < |cs| ensures DragCouplers(conce, hits, group)[k] == conce[k] {
      DragIdempotent(cs[k].marks, group);
    }
  }
}

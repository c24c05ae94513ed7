/**
 * The Chip class of sketch.js: the qubit and coupler objects of one chip and
 * the editing operations on them. Every method is specified by the ChipRecord
 * (Chip.toJSON) it leaves behind, as a function of the record before.
 */
module Chips {
  import opened Common
  import opened Records
  import opened Naming
  import opened Topology
  import Modes
  import Lattice
  import Renumbering
  import Selection
  import Editing

  class Chip {
    const width: int
    const height: int
    const qubitStartIdx: int
    const qubitNameLength: int
    const useOriginAsQubit: bool
    var qubits: seq<Qubit>
    var couplers: seq<Coupler>

    /** No object listed twice, and every coupler's endpoints are qubits of this chip. */
    predicate Valid()
      reads this
    {
      DistinctQubits(qubits) && DistinctCouplers(couplers) && Attached(qubits, couplers)
    }

    /** Chip.toJSON. */
    function ToJSON(): ChipRecord
      reads this, qubits, couplers, Endpoints(couplers)
    {
      ChipRecord(width, height, qubitStartIdx, qubitNameLength, useOriginAsQubit,
                 QubitStates(qubits), CouplerStates(couplers))
    }

    /** `new Chip(width, height, useOriginAsQubit, qubitStartIdx, qubitNameLength)`. */
    constructor (width: int, height: int, useOriginAsQubit: bool, qubitStartIdx: int, qubitNameLength: int)
      ensures Valid()
      ensures ToJSON() == ChipRecord(width, height, qubitStartIdx, qubitNameLength, useOriginAsQubit,
        Lattice.LatticeQubits(width, height, useOriginAsQubit, qubitStartIdx),
        Lattice.LatticeCouplers(Lattice.LatticeQubits(width, height, useOriginAsQubit, qubitStartIdx)))
      ensures forall q :: q in qubits ==> fresh(q)
    {
      var qs, cs := Initialize(width, height, useOriginAsQubit, qubitStartIdx);
      this.width := width;
      this.height := height;
      this.qubitStartIdx := qubitStartIdx;
      this.qubitNameLength := qubitNameLength;
      this.useOriginAsQubit := useOriginAsQubit;
      qubits := qs;
      couplers := cs;
    }

    /** `new Chip()` followed by fromJSON(json), as loadFromLocalStorage does. */
    constructor FromJSON(json: ChipRecord)
      requires Renumbering.EndpointsExist(json.qubits, json.couplers)
      ensures Valid()
      ensures ToJSON() == json
    {
      var qs := RestoreQubits(json.qubits);
      var cs := RestoreCouplers(json.couplers, qs);
      width := json.width;
      height := json.height;
      qubitStartIdx := json.qubitStartIdx;
      qubitNameLength := json.qubitNameLength;
      useOriginAsQubit := json.useOriginAsQubit;
      qubits := qs;
      couplers := cs;
    }

    /** Chip.getSelectedQubitsPythonObject, with storage.mode passed in. */
    method GetSelectedQubitsPythonObject(mode: Modes.Mode) returns (r: Selection.ExportOutcome)
      ensures r == Selection.Export(Selection.QubitEntries(QubitStates(qubits), qubitNameLength), mode)
    {
      var es := Selection.QubitEntries(QubitStates(qubits), qubitNameLength);
      if Modes.IsListMode(mode) {
        var selectedGroups: seq<seq<string>> := [[], [], [], []];
        for i := 0 to |qubits|
          invariant Selection.Buckets(es[..i]) == Some(selectedGroups)
        {
          var qubit := qubits[i];
          Selection.BucketsStep(es, i, selectedGroups);
          if qubit.selectGroup.Some? {
            var g := qubit.selectGroup.value;
            if g >= 4 {
              // selectedGroups[g] is undefined: push throws.
              return Selection.TypeError;
            }
            selectedGroups := selectedGroups[g := selectedGroups[g] + [qubit.GetName(qubitNameLength)]];
          }
        }
        assert es[..|qubits|] == es;
        r := Selection.Exported(Selection.ListExport(selectedGroups));
      } else if Modes.IsAttrMode(mode) {
        r := Selection.Exported("{" + Selection.Join(Selection.AttrParts(es), ", ") + "}");
      } else {
        r := Selection.Undefined;
      }
    }

    /** Chip.getSelectedCouplersPythonObject, with storage.mode passed in. */
    method GetSelectedCouplersPythonObject(mode: Modes.Mode) returns (r: Selection.ExportOutcome)
      ensures r == Selection.Export(Selection.CouplerEntries(CouplerStates(couplers), qubitNameLength), mode)
    {
      var es := Selection.CouplerEntries(CouplerStates(couplers), qubitNameLength);
      if Modes.IsListMode(mode) {
        var selectedGroups: seq<seq<string>> := [[], [], [], []];
        for i := 0 to |couplers|
          invariant es == Selection.CouplerEntries(CouplerStates(couplers), qubitNameLength)
          invariant Selection.Buckets(es[..i]) == Some(selectedGroups)
        {
          var coupler := couplers[i];
          Selection.BucketsStep(es, i, selectedGroups);
          if coupler.selectGroup.Some? {
            var g := coupler.selectGroup.value;
            if g >= 4 {
              return Selection.TypeError;
            }
            selectedGroups := selectedGroups[g := selectedGroups[g] + [coupler.GetName(qubitNameLength)]];
          }
        }
        assert es[..|couplers|] == es;
        r := Selection.Exported(Selection.ListExport(selectedGroups));
      } else if Modes.IsAttrMode(mode) {
        r := Selection.Exported("{" + Selection.Join(Selection.AttrParts(es), ", ") + "}");
      } else {
        r := Selection.Undefined;
      }
    }

    /** Some qubit's or coupler's getName() is v. */
    predicate HasName(v: Selection.PyValue)
      reads this, qubits, Endpoints(couplers)
    {
      v.PyStr? && (v.s in QubitNames(qubits, qubitNameLength) || v.s in CouplerNames(couplers, qubitNameLength))
    }

    /** checkNamesAllInChip: returns the names it raises an alert for, in order. */
    method CheckNamesAllInChip(names: seq<Selection.PyValue>) returns (unknown: seq<Selection.PyValue>)
      ensures unknown == Selection.Unknown(names, QubitStates(qubits), CouplerStates(couplers), qubitNameLength)
    {
      ghost var qs, cs := QubitStates(qubits), CouplerStates(couplers);
      ghost var all := Selection.Unknown(names, qs, cs, qubitNameLength);
      unknown := [];
      assert names[0..] == names;
      for i := 0 to |names|
        invariant unknown + Selection.Unknown(names[i..], qs, cs, qubitNameLength) == all
      {
        ghost var rest := Selection.Unknown(names[i + 1..], qs, cs, qubitNameLength);
        Selection.UnknownStep(names, i, qs, cs, qubitNameLength);
        var known := HasName(names[i]);
        HasNameIsKnown(this, names[i]);
        if !known {
          // alert("Include invalid qubit/coupler names in the input.")
          assert unknown + ([names[i]] + rest) == (unknown + [names[i]]) + rest;
          unknown := unknown + [names[i]];
        } else {
          assert [] + rest == rest;
        }
      }
      assert names[|names|..] == [];
      assert unknown + [] == unknown;
      assert qs == QubitStates(qubits);
      assert cs == CouplerStates(couplers);
      assert unknown == all;
    }

    /**
     * importSelections on input that parsed to an array. Returns the mode it
     * switches to (None: left as it was) and the names it alerts about.
     */
    method ImportSelections(items: seq<Selection.PyValue>) returns (mode: Option<Modes.Mode>, unknown: seq<Selection.PyValue>)
      requires Valid()
      modifies qubits, couplers
      ensures var r := Selection.ImportList(old(QubitStates(qubits)), old(CouplerStates(couplers)), items, qubitNameLength);
        QubitStates(qubits) == r.qubits && CouplerStates(couplers) == r.couplers && mode == r.mode && unknown == r.unknown
    {
      ghost var qs0, cs0 := QubitStates(qubits), CouplerStates(couplers);
      unknown := CheckNamesAllInChip(Selection.Flat(items));
      assert QubitStates(qubits) == qs0 && CouplerStates(couplers) == cs0;
      assert unknown == Selection.Unknown(Selection.Flat(items), qs0, cs0, qubitNameLength);
      mode := None;
      if items == [] {
        return;
      }
      var groups := Selection.GroupsOf(items);
      var completed, qubitUpdated := ApplyGroups(groups);
      if completed {
        mode := if qubitUpdated then Some(Modes.Qubit) else Some(Modes.Coupler);
      }
    }

    /**
     * The loop over the groups, as a whole: the groups it gets through and
     * whether it ended without an exception.
     */
    method ApplyGroups(groups: seq<Selection.PyValue>) returns (completed: bool, qubitUpdated: bool)
      requires Valid()
      modifies qubits, couplers
      ensures QubitStates(qubits) == Selection.ImportQubits(old(QubitStates(qubits)), Selection.Applied(groups), qubitNameLength)
      ensures CouplerStates(couplers) == Selection.ImportCouplers(old(CouplerStates(couplers)), Selection.Applied(groups), qubitNameLength)
      ensures completed <==> !(Selection.FirstFailure(groups).Some? && old(qubits != [] || couplers != []))
      ensures completed ==> qubitUpdated == Selection.AnyQubitMatch(old(QubitStates(qubits)), Selection.Applied(groups), qubitNameLength)
    {
      var n;
      n, qubitUpdated := RunGroups(groups);
      completed := n == |groups|;
      if !completed {
        Selection.AppliedUpTo(groups, n);
      } else if old(qubits != [] || couplers != []) {
        assert groups[..n] == groups;
        Selection.AppliedAll(groups);
      }
    }

    /**
     * The loop over the groups: group g's forEach over the qubits, then over
     * the couplers. A group without an includes method throws in the first
     * callback, which ends the loop after n groups.
     */
    method RunGroups(groups: seq<Selection.PyValue>) returns (n: nat, qubitUpdated: bool)
      requires Valid()
      modifies qubits, couplers
      ensures n <= |groups|
      ensures QubitStates(qubits) == Selection.ImportQubits(old(QubitStates(qubits)), groups[..n], qubitNameLength)
      ensures CouplerStates(couplers) == Selection.ImportCouplers(old(CouplerStates(couplers)), groups[..n], qubitNameLength)
      ensures qubitUpdated == Selection.AnyQubitMatch(old(QubitStates(qubits)), groups[..n], qubitNameLength)
      ensures n < |groups| ==> groups[n].PyOther? && old(qubits != [] || couplers != [])
      ensures old(qubits != [] || couplers != []) ==> Selection.PassesBefore(groups, n)
      ensures old(qubits == [] && couplers == []) ==> n == |groups|
    {
      ghost var q0, c0 := QubitStates(qubits), CouplerStates(couplers);
      var nonEmpty := qubits != [] || couplers != [];
      qubitUpdated := false;
      assert groups[..0] == [];
      n := 0;
      // A group without an includes method throws in the first callback when
      // there is one, and the catch ends the import: the loop stops there.
      while n < |groups| && !(groups[n].PyOther? && nonEmpty)
        invariant n <= |groups|
        invariant QubitStates(qubits) == Selection.ImportQubits(q0, groups[..n], qubitNameLength)
        invariant CouplerStates(couplers) == Selection.ImportCouplers(c0, groups[..n], qubitNameLength)
        invariant qubitUpdated == Selection.AnyQubitMatch(q0, groups[..n], qubitNameLength)
        invariant nonEmpty ==> Selection.PassesBefore(groups, n)
      {
        if nonEmpty {
          Selection.PassesStep(groups, n);
        }
        qubitUpdated := ImportGroup(groups, n, q0, c0, qubitUpdated);
        n := n + 1;
      }
    }

    /** Group g's two forEach loops. */
    method ImportGroup(groups: seq<Selection.PyValue>, g: nat, ghost q0: seq<QubitState>, ghost c0: seq<CouplerState>,
                       updated: bool) returns (qubitUpdated: bool)
      requires Valid() && g < |groups|
      requires groups[g].PyOther? ==> qubits == [] && couplers == []
      requires QubitStates(qubits) == Selection.ImportQubits(q0, groups[..g], qubitNameLength)
      requires CouplerStates(couplers) == Selection.ImportCouplers(c0, groups[..g], qubitNameLength)
      requires updated == Selection.AnyQubitMatch(q0, groups[..g], qubitNameLength)
      modifies qubits, couplers
      ensures QubitStates(qubits) == Selection.ImportQubits(q0, groups[..g + 1], qubitNameLength)
      ensures CouplerStates(couplers) == Selection.ImportCouplers(c0, groups[..g + 1], qubitNameLength)
      ensures qubitUpdated == Selection.AnyQubitMatch(q0, groups[..g + 1], qubitNameLength)
    {
      ghost var qs, cs := QubitStates(qubits), CouplerStates(couplers);
      Selection.ImportStep(q0, c0, groups, g, qubitNameLength);
      var matched := ApplyToQubits(qubits, couplers, g, groups[g], qubitNameLength);
      assert CouplerStates(couplers) == cs;
      ApplyToCouplers(couplers, qubits, g, groups[g], qubitNameLength);
      qubitUpdated := updated || matched;
    }

    /** numActiveQubits; the statistics panel shows numQubits minus it as "Disabled Qubits". */
    function NumActiveQubits(): (n: nat)
      reads this, qubits
      ensures n <= |qubits|
      ensures |qubits| - n == CountDisabled(QubitMarks(QubitStates(qubits)))
    {
      var ms := QubitMarks(QubitStates(qubits));
      ActivePlusDisabled(ms);
      CountActive(ms)
    }

    /** numActiveCouplers, likewise. */
    function NumActiveCouplers(): (n: nat)
      reads this, couplers, Endpoints(couplers)
      ensures n <= |couplers|
      ensures |couplers| - n == CountDisabled(CouplerMarks(CouplerStates(couplers)))
    {
      var ms := CouplerMarks(CouplerStates(couplers));
      ActivePlusDisabled(ms);
      CountActive(ms)
    }

    /** numSelectedQubits. */
    function NumSelectedQubits(): (n: nat)
      reads this, qubits
      ensures n <= |qubits|
    {
      var ms := QubitMarks(QubitStates(qubits));
      ActivePlusDisabled(ms);
      CountSelected(ms)
    }

    /** numSelectedCouplers. */
    function NumSelectedCouplers(): (n: nat)
      reads this, couplers, Endpoints(couplers)
      ensures n <= |couplers|
    {
      var ms := CouplerMarks(CouplerStates(couplers));
      ActivePlusDisabled(ms);
      CountSelected(ms)
    }

    /** Chip.reset: every qubit and coupler forgets its group and attribute. */
    method Reset()
      requires Valid()
      modifies qubits, couplers
      ensures ToJSON() == old(ToJSON()).(qubits := ResetQubits(old(ToJSON()).qubits),
                                        couplers := ResetCouplers(old(ToJSON()).couplers))
    {
      ghost var cs0 := CouplerStates(couplers);
      ResetAllQubits(qubits, couplers);
      ghost var qs1 := QubitStates(qubits);
      assert CouplerStates(couplers) == cs0;
      ResetAllCouplers(couplers);
      assert QubitStates(qubits) == qs1;
    }

    /** Chip.deleteQubits: drop the listed qubits and their couplers, then close the gaps in the ids. */
    method DeleteQubits(qids: seq<int>)
      requires Valid()
      modifies this, set q | q in qubits
      ensures Valid()
      ensures ToJSON() == old(ToJSON()).(qubits := Renumbering.DeleteQubits(old(ToJSON()).qubits, qids),
                                        couplers := Renumbering.DeleteCouplers(old(ToJSON()).couplers, qids))
    {
      KeepSurvivors(qids);
      ShiftIds(qubits, couplers, qids);
    }

    /** Chip.deleteQubit: drop one qubit and its couplers, then lower every larger id by one. */
    method DeleteQubit(qid: int)
      requires Valid()
      modifies this, set q | q in qubits
      ensures Valid()
      ensures ToJSON() == old(ToJSON()).(qubits := Renumbering.DeleteQubit(old(ToJSON()).qubits, qid),
                                        couplers := Renumbering.DeleteCoupler(old(ToJSON()).couplers, qid))
    {
      Renumbering.KeepQubitsSingle(ToJSON().qubits, qid);
      Renumbering.KeepCouplersSingle(ToJSON().couplers, qid);
      KeepSurvivors([qid]);
      LowerIds(qubits, couplers, qid);
    }

    /**
     * Chip.handleClick, with the hit-test done: qubitHit and couplerHit are
     * the first hovered qubit and coupler, and answer is what prompt()
     * returned in an attribute mode (None when cancelled).
     */
    method HandleClick(mode: Modes.Mode, qubitHit: Option<nat>, couplerHit: Option<nat>, group: nat, answer: Option<string>)
      requires Valid()
      requires qubitHit.Some? ==> qubitHit.value < |qubits|
      requires couplerHit.Some? ==> couplerHit.value < |couplers|
      modifies qubits, couplers
      ensures ToJSON() == Editing.Click(old(ToJSON()), mode, qubitHit, couplerHit, group, answer)
    {
      ghost var r := ToJSON();
      ghost var r' := Editing.Click(r, mode, qubitHit, couplerHit, group, answer);
      if Editing.QubitClickable(mode) && qubitHit.Some? {
        ClickQubitAt(qubits, couplers, qubitHit.value, mode, group, answer);
        assert QubitStates(qubits) == r'.qubits && CouplerStates(couplers) == r'.couplers;
        return;
      }
      if Editing.CouplerClickable(mode) && couplerHit.Some? {
        ClickCouplerAt(couplers, couplerHit.value, mode, group, answer);
        assert CouplerStates(couplers) == r'.couplers;
      }
      assert QubitStates(qubits) == r'.qubits;
    }

    /** Chip.handleDoubleClick: in Topology mode, delete the qubit under the cursor. */
    method HandleDoubleClick(mode: Modes.Mode, qubitHit: Option<nat>)
      requires Valid()
      requires qubitHit.Some? ==> qubitHit.value < |qubits|
      modifies this, set q | q in qubits
      ensures Valid()
      ensures mode == Modes.Topology && qubitHit.Some? ==>
        var qid := old(ToJSON()).qubits[qubitHit.value].id;
        ToJSON() == old(ToJSON()).(qubits := Renumbering.DeleteQubit(old(ToJSON()).qubits, qid),
                                  couplers := Renumbering.DeleteCoupler(old(ToJSON()).couplers, qid))
      ensures !(mode == Modes.Topology && qubitHit.Some?) ==> ToJSON() == old(ToJSON())
    {
      if mode == Modes.Topology && qubitHit.Some? {
        DeleteQubit(qubits[qubitHit.value].id);
      }
    }

    /** Chip.handleDrag over a rectangle of lattice coordinates. */
    method HandleDrag(mode: Modes.Mode, box: Editing.Box, group: nat)
      requires Valid()
      modifies qubits, couplers
      ensures mode == Modes.Qubit ==>
        ToJSON() == old(ToJSON()).(qubits := Editing.DragQubits(old(ToJSON()).qubits, box, group))
      ensures mode != Modes.Qubit ==>
        ToJSON() == old(ToJSON()).(couplers := Editing.DragCouplers(old(ToJSON()).couplers, CouplerHits(couplers, box), group))
    {
      if mode == Modes.Qubit {
        DragQubitObjects(qubits, couplers, box, group);
      } else {
        DragCouplerObjects(couplers, box, group);
      }
    }

    /** The mode radio listener: switching from prev to next resets the chip when ResetsOnModeChange says so. */
    method SwitchMode(prev: Modes.Mode, next: Modes.Mode)
      requires Valid()
      modifies qubits, couplers
      ensures Modes.ResetsOnModeChange(prev, next) ==>
        ToJSON() == old(ToJSON()).(qubits := ResetQubits(old(ToJSON()).qubits),
                                  couplers := ResetCouplers(old(ToJSON()).couplers))
      ensures !Modes.ResetsOnModeChange(prev, next) ==> ToJSON() == old(ToJSON())
    {
      if Modes.ResetsOnModeChange(prev, next) {
        Reset();
      }
    }

    /** The two filter steps shared by deleteQubit and deleteQubits. */
    method KeepSurvivors(qids: seq<int>)
      requires Valid()
      modifies this
      ensures Valid()
      ensures forall q :: q in qubits ==> q in old(qubits)
      ensures QubitStates(qubits) == Renumbering.KeepQubits(old(QubitStates(qubits)), qids)
      ensures CouplerStates(couplers) == Renumbering.KeepCouplers(old(CouplerStates(couplers)), qids)
    {
      var keptQubits := SurvivingQubits(qubits, qids);
      var keptCouplers := SurvivingCouplers(couplers, qids);
      Survivors(qubits, couplers, qids);
      qubits, couplers := keptQubits, keptCouplers;
    }
  }

  /** What the two filters keep, as records, and that the kept objects still form a valid chip. */
  lemma Survivors(qs: seq<Qubit>, cs: seq<Coupler>, qids: seq<int>)
    requires DistinctQubits(qs) && DistinctCouplers(cs) && Attached(qs, cs)
    ensures QubitStates(SurvivingQubits(qs, qids)) == Renumbering.KeepQubits(QubitStates(qs), qids)
    ensures CouplerStates(SurvivingCouplers(cs, qids)) == Renumbering.KeepCouplers(CouplerStates(cs), qids)
    ensures DistinctQubits(SurvivingQubits(qs, qids)) && DistinctCouplers(SurvivingCouplers(cs, qids))
    ensures Attached(SurvivingQubits(qs, qids), SurvivingCouplers(cs, qids))
  {
    SurvivingQubitsStates(qs, qids);
    SurvivingCouplersStates(cs, qids);
    SurvivingQubitsDistinct(qs, qids);
    SurvivingCouplersDistinct(cs, qids);
    SurvivorsAttached(qs, cs, qids);
  }

  /** A coupler kept by deleteQubits has kept both its endpoints. */
  lemma SurvivorsAttached(qs: seq<Qubit>, cs: seq<Coupler>, qids: seq<int>)
    requires Attached(qs, cs)
    ensures Attached(SurvivingQubits(qs, qids), SurvivingCouplers(cs, qids))
  {
  }

  /** A well-formed chip never saves a coupler whose endpoint id is missing, so fromJSON can resolve it. */
  lemma AttachedEndpointsExist(qs: seq<Qubit>, cs: seq<Coupler>)
    requires Attached(qs, cs)
    ensures Renumbering.EndpointsExist(QubitStates(qs), CouplerStates(cs))
  {
    var states := QubitStates(qs);
    forall c | c in CouplerStates(cs)
      ensures (exists q :: q in states && q.id == c.qubitA) && (exists q :: q in states && q.id == c.qubitB)
    {
      var k :| 0 <= k < |cs| && CouplerStates(cs)[k] == c;
      var a :| 0 <= a < |qs| && qs[a] == cs[k].qubitA;
      var b :| 0 <= b < |qs| && qs[b] == cs[k].qubitB;
      assert states[a] in states && states[b] in states;
    }
  }

  /** this.qubits.forEach(q => q.reset()). */
  method ResetAllQubits(qs: seq<Qubit>, ghost cs: seq<Coupler>)
    requires DistinctQubits(qs) && Attached(qs, cs)
    modifies qs
    ensures QubitStates(qs) == ResetQubits(old(QubitStates(qs)))
    ensures CouplerStates(cs) == old(CouplerStates(cs))
  {
    for i := 0 to |qs|
      invariant forall k :: 0 <= k < i ==> qs[k].ToJSON() == old(qs[k].ToJSON()).(marks := Clear(old(qs[k].Flags())))
      invariant forall k :: i <= k < |qs| ==> qs[k].ToJSON() == old(qs[k].ToJSON())
    {
      qs[i].Reset();
    }
    forall k | 0 <= k < |cs| ensures cs[k].ToJSON() == old(cs[k].ToJSON()) {
      assert cs[k] in cs;
    }
  }

  /** this.couplers.forEach(c => c.reset()). */
  method ResetAllCouplers(cs: seq<Coupler>)
    requires DistinctCouplers(cs)
    modifies cs
    ensures CouplerStates(cs) == ResetCouplers(old(CouplerStates(cs)))
  {
    for i := 0 to |cs|
      invariant forall k :: 0 <= k < i ==> cs[k].Flags() == Clear(old(cs[k].Flags()))
      invariant forall k :: i <= k < |cs| ==> cs[k].Flags() == old(cs[k].Flags())
    {
      cs[i].Reset();
    }
  }

  lemma QubitStatesConcat(a: seq<Qubit>, b: seq<Qubit>)
    ensures QubitStates(a + b) == QubitStates(a) + QubitStates(b)
  {
    var l, r := QubitStates(a + b), QubitStates(a) + QubitStates(b);
    forall k | 0 <= k < |l| ensures l[k] == r[k] {
      if k < |a| { assert (a + b)[k] == a[k]; } else { assert (a + b)[k] == b[k - |a|]; }
    }
  }

  lemma CouplerStatesConcat(a: seq<Coupler>, b: seq<Coupler>)
    ensures CouplerStates(a + b) == CouplerStates(a) + CouplerStates(b)
  {
    var l, r := CouplerStates(a + b), CouplerStates(a) + CouplerStates(b);
    forall k | 0 <= k < |l| ensures l[k] == r[k] {
      if k < |a| { assert (a + b)[k] == a[k]; } else { assert (a + b)[k] == b[k - |a|]; }
    }
  }

  /** this.qubits.filter(q => !qids.includes(q.id)) on the objects: the records kept are KeepQubits's. */
  function SurvivingQubits(qs: seq<Qubit>, qids: seq<int>): (r: seq<Qubit>)
    reads qs
    ensures forall q :: q in r ==> q in qs && q.id !in qids
    ensures forall q :: q in qs && q.id !in qids ==> q in r
  {
    if qs == [] then []
    else
      var rest := SurvivingQubits(qs[1..], qids);
      assert forall q :: q in qs[1..] ==> q in qs;
      if qs[0].id in qids then rest else [qs[0]] + rest
  }

  /** this.couplers.filter(...) on the objects: a coupler survives when neither endpoint's id is listed. */
  function SurvivingCouplers(cs: seq<Coupler>, qids: seq<int>): (r: seq<Coupler>)
    reads cs, Endpoints(cs)
    ensures forall c :: c in r ==> c in cs && c.qubitA.id !in qids && c.qubitB.id !in qids
    ensures forall c :: c in cs && c.qubitA.id !in qids && c.qubitB.id !in qids ==> c in r
  {
    if cs == [] then []
    else
      var rest := SurvivingCouplers(cs[1..], qids);
      assert forall c :: c in cs[1..] ==> c in cs;
      if cs[0].qubitA.id in qids || cs[0].qubitB.id in qids then rest else [cs[0]] + rest
  }

  /** The object filter keeps exactly the records KeepQubits keeps. */
  lemma {:induction false} SurvivingQubitsStates(qs: seq<Qubit>, qids: seq<int>)
    ensures QubitStates(SurvivingQubits(qs, qids)) == Renumbering.KeepQubits(QubitStates(qs), qids)
  {
    if qs != [] {
      var rest := SurvivingQubits(qs[1..], qids);
      var states := QubitStates(qs);
      SurvivingQubitsStates(qs[1..], qids);
      assert states[1..] == QubitStates(qs[1..]);
      assert states[0].id == qs[0].id;
      assert Renumbering.KeepQubits(states, qids) ==
        (if states[0].id in qids then [] else [states[0]]) + Renumbering.KeepQubits(states[1..], qids);
      if qs[0].id !in qids {
        QubitStatesConcat([qs[0]], rest);
        assert QubitStates([qs[0]]) == [states[0]];
      }
    }
  }

  /** The object filter lists no qubit twice. */
  lemma {:induction false} SurvivingQubitsDistinct(qs: seq<Qubit>, qids: seq<int>)
    requires DistinctQubits(qs)
    ensures DistinctQubits(SurvivingQubits(qs, qids))
  {
    if qs != [] {
      SurvivingQubitsDistinct(qs[1..], qids);
      assert qs[0] !in qs[1..];
    }
  }

  /** The object filter keeps exactly the records KeepCouplers keeps. */
  lemma {:induction false} SurvivingCouplersStates(cs: seq<Coupler>, qids: seq<int>)
    ensures CouplerStates(SurvivingCouplers(cs, qids)) == Renumbering.KeepCouplers(CouplerStates(cs), qids)
  {
    if cs != [] {
      var rest := SurvivingCouplers(cs[1..], qids);
      var states := CouplerStates(cs);
      SurvivingCouplersStates(cs[1..], qids);
      assert states[1..] == CouplerStates(cs[1..]);
      assert states[0].qubitA == cs[0].qubitA.id && states[0].qubitB == cs[0].qubitB.id;
      assert Renumbering.KeepCouplers(states, qids) ==
        (if states[0].qubitA in qids || states[0].qubitB in qids then [] else [states[0]]) +
        Renumbering.KeepCouplers(states[1..], qids);
      if !(cs[0].qubitA.id in qids || cs[0].qubitB.id in qids) {
        CouplerStatesConcat([cs[0]], rest);
        assert CouplerStates([cs[0]]) == [states[0]];
      }
    }
  }

  /** The object filter lists no coupler twice. */
  lemma {:induction false} SurvivingCouplersDistinct(cs: seq<Coupler>, qids: seq<int>)
    requires DistinctCouplers(cs)
    ensures DistinctCouplers(SurvivingCouplers(cs, qids))
  {
    if cs != [] {
      SurvivingCouplersDistinct(cs[1..], qids);
      assert cs[0] !in cs[1..];
    }
  }

  /** this.qubits.forEach(q => { q.id -= qids.filter(id => id < q.id).length }); the couplers see it through their endpoints. */
  method ShiftIds(qs: seq<Qubit>, ghost cs: seq<Coupler>, qids: seq<int>)
    requires DistinctQubits(qs) && Attached(qs, cs)
    modifies qs
    ensures QubitStates(qs) == Renumbering.ShiftQubits(old(QubitStates(qs)), qids)
    ensures CouplerStates(cs) == Renumbering.ShiftCouplers(old(CouplerStates(cs)), qids)
  {
    for i := 0 to |qs|
      invariant forall k :: 0 <= k < i ==> qs[k].ToJSON() == old(qs[k].ToJSON()).(id := Renumbering.NewId(old(qs[k].id), qids))
      invariant forall k :: i <= k < |qs| ==> qs[k].ToJSON() == old(qs[k].ToJSON())
    {
      var q := qs[i];
      q.id := q.id - Renumbering.CountBelow(qids, q.id);
    }
    forall k | 0 <= k < |cs|
      ensures cs[k].ToJSON() == old(cs[k].ToJSON()).(qubitA := Renumbering.NewId(old(cs[k].qubitA.id), qids),
                                                    qubitB := Renumbering.NewId(old(cs[k].qubitB.id), qids))
    {
      assert cs[k] in cs;
      var a :| 0 <= a < |qs| && qs[a] == cs[k].qubitA;
      var b :| 0 <= b < |qs| && qs[b] == cs[k].qubitB;
    }
  }

  /** this.qubits.forEach(q => { if (q.id > qid) q.id -= 1 }). */
  method LowerIds(qs: seq<Qubit>, ghost cs: seq<Coupler>, qid: int)
    requires DistinctQubits(qs) && Attached(qs, cs)
    modifies qs
    ensures QubitStates(qs) == seq(|qs|, k requires 0 <= k < |qs| =>
      old(QubitStates(qs))[k].(id := Renumbering.LowerAbove(old(QubitStates(qs))[k].id, qid)))
    ensures CouplerStates(cs) == seq(|cs|, k requires 0 <= k < |cs| =>
      old(CouplerStates(cs))[k].(qubitA := Renumbering.LowerAbove(old(CouplerStates(cs))[k].qubitA, qid),
                                 qubitB := Renumbering.LowerAbove(old(CouplerStates(cs))[k].qubitB, qid)))
  {
    for i := 0 to |qs|
      invariant forall k :: 0 <= k < i ==> qs[k].ToJSON() == old(qs[k].ToJSON()).(id := Renumbering.LowerAbove(old(qs[k].id), qid))
      invariant forall k :: i <= k < |qs| ==> qs[k].ToJSON() == old(qs[k].ToJSON())
    {
      var q := qs[i];
      if q.id > qid {
        q.id := q.id - 1;
      }
    }
    forall k | 0 <= k < |cs|
      ensures cs[k].ToJSON() == old(cs[k].ToJSON()).(qubitA := Renumbering.LowerAbove(old(cs[k].qubitA.id), qid),
                                                    qubitB := Renumbering.LowerAbove(old(cs[k].qubitB.id), qid))
    {
      assert cs[k] in cs;
      var a :| 0 <= a < |qs| && qs[a] == cs[k].qubitA;
      var b :| 0 <= b < |qs| && qs[b] == cs[k].qubitB;
    }
  }

  /** The qubit branch of handleClick on the clicked qubit. */
  method ClickQubit(q: Qubit, mode: Modes.Mode, group: nat, answer: Option<string>)
    requires Editing.QubitClickable(mode)
    modifies q
    ensures q.ToJSON() == old(q.ToJSON()).(marks := Editing.ClickMarks(mode, old(q.Flags()), group, answer))
  {
    if mode == Modes.Topology {
      q.disabled := !q.disabled;
    } else if mode == Modes.Qubit {
      q.HandleSelect(false, group);
    } else {
      match answer
      case None =>
      case Some(text) =>
        if text == "" {
          q.selectGroup := None;
          q.attribute := None;
        } else {
          q.selectGroup := Some(0);
          q.attribute := Some(text);
        }
    }
  }

  /** The coupler branch of handleClick on the clicked coupler. */
  method ClickCoupler(c: Coupler, mode: Modes.Mode, group: nat, answer: Option<string>)
    requires Editing.CouplerClickable(mode)
    modifies c
    ensures c.Flags() == Editing.ClickMarks(mode, old(c.Flags()), group, answer)
  {
    if mode == Modes.Topology {
      c.disabled := !c.disabled;
    } else if mode == Modes.Coupler {
      c.HandleSelect(false, group);
    } else {
      match answer
      case None =>
      case Some(text) =>
        if text == "" {
          c.selectGroup := None;
          c.attribute := None;
        } else {
          c.selectGroup := Some(0);
          c.attribute := Some(text);
        }
    }
  }

  method ClickQubitAt(qs: seq<Qubit>, ghost cs: seq<Coupler>, i: nat, mode: Modes.Mode, group: nat, answer: Option<string>)
    requires DistinctQubits(qs) && Attached(qs, cs) && i < |qs| && Editing.QubitClickable(mode)
    modifies qs
    ensures QubitStates(qs) ==
      old(QubitStates(qs))[i := old(qs[i].ToJSON()).(marks := Editing.ClickMarks(mode, old(qs[i].Flags()), group, answer))]
    ensures CouplerStates(cs) == old(CouplerStates(cs))
  {
    ClickQubit(qs[i], mode, group, answer);
    forall k | 0 <= k < |cs| ensures cs[k].ToJSON() == old(cs[k].ToJSON()) {
      assert cs[k] in cs;
    }
  }

  method ClickCouplerAt(cs: seq<Coupler>, j: nat, mode: Modes.Mode, group: nat, answer: Option<string>)
    requires DistinctCouplers(cs) && j < |cs| && Editing.CouplerClickable(mode)
    modifies cs
    ensures CouplerStates(cs) ==
      old(CouplerStates(cs))[j := old(cs[j].ToJSON()).(marks := Editing.ClickMarks(mode, old(cs[j].Flags()), group, answer))]
  {
    ClickCoupler(cs[j], mode, group, answer);
  }

  /** Coupler.isSelected for each coupler: either endpoint lies in the box. */
  function CouplerHits(cs: seq<Coupler>, box: Editing.Box): (r: seq<bool>)
    ensures |r| == |cs|
    ensures forall k :: 0 <= k < |cs| ==>
      (r[k] <==> Editing.InBox(box, cs[k].qubitA.x, cs[k].qubitA.y) || Editing.InBox(box, cs[k].qubitB.x, cs[k].qubitB.y))
  {
    seq(|cs|, k requires 0 <= k < |cs| =>
      Editing.InBox(box, cs[k].qubitA.x, cs[k].qubitA.y) || Editing.InBox(box, cs[k].qubitB.x, cs[k].qubitB.y))
  }

  /** The Qubit-mode loop of handleDrag. */
  method DragQubitObjects(qs: seq<Qubit>, ghost cs: seq<Coupler>, box: Editing.Box, group: nat)
    requires DistinctQubits(qs) && Attached(qs, cs)
    modifies qs
    ensures QubitStates(qs) == Editing.DragQubits(old(QubitStates(qs)), box, group)
    ensures CouplerStates(cs) == old(CouplerStates(cs))
  {
    for i := 0 to |qs|
      invariant forall k :: 0 <= k < i ==>
        qs[k].ToJSON() == Editing.DragQubits(old(QubitStates(qs)), box, group)[k]
      invariant forall k :: i <= k < |qs| ==> qs[k].ToJSON() == old(qs[k].ToJSON())
    {
      var q := qs[i];
      if Editing.InBox(box, q.x, q.y) {
        q.HandleSelect(true, group);
      }
    }
    forall k | 0 <= k < |cs| ensures cs[k].ToJSON() == old(cs[k].ToJSON()) {
      assert cs[k] in cs;
    }
  }

  /** The loop of handleDrag in the other modes. */
  method DragCouplerObjects(cs: seq<Coupler>, box: Editing.Box, group: nat)
    requires DistinctCouplers(cs)
    modifies cs
    ensures CouplerStates(cs) == Editing.DragCouplers(old(CouplerStates(cs)), CouplerHits(cs, box), group)
  {
    for i := 0 to |cs|
      invariant forall k :: 0 <= k < i ==>
        cs[k].Flags() == (if CouplerHits(cs, box)[k] then Select(old(cs[k].Flags()), true, group) else old(cs[k].Flags()))
      invariant forall k :: i <= k < |cs| ==> cs[k].Flags() == old(cs[k].Flags())
    {
      var c := cs[i];
      if Editing.InBox(box, c.qubitA.x, c.qubitA.y) || Editing.InBox(box, c.qubitB.x, c.qubitB.y) {
        c.HandleSelect(true, group);
      }
    }
  }

  /** json.qubits.map(q => { let qubit = new Qubit(); qubit.fromJSON(q); return qubit; }). */
  method RestoreQubits(states: seq<QubitState>) returns (qs: seq<Qubit>)
    ensures DistinctQubits(qs) && forall q :: q in qs ==> fresh(q)
    ensures QubitStates(qs) == states
  {
    qs := [];
    for i := 0 to |states|
      invariant DistinctQubits(qs) && forall q :: q in qs ==> fresh(q)
      invariant QubitStates(qs) == states[..i]
    {
      var q := new Qubit.FromJSON(states[i]);
      AppendQubitState(qs, q);
      qs := qs + [q];
    }
  }

  /** qubits.find(q => q.id === id), as the index of the qubit found. */
  function FindQubit(qs: seq<Qubit>, id: int): (r: Option<nat>)
    reads qs
    ensures r.Some? ==> r.value < |qs| && qs[r.value].id == id
    ensures r.Some? ==> forall k :: 0 <= k < r.value ==> qs[k].id != id
    ensures r.None? ==> forall k :: 0 <= k < |qs| ==> qs[k].id != id
  {
    if qs == [] then None
    else if qs[0].id == id then Some(0)
    else
      match FindQubit(qs[1..], id)
      case None => None
      case Some(k) => Some(k + 1)
  }

  /** A saved endpoint id that names a qubit is found. */
  lemma FindSavedEndpoint(qs: seq<Qubit>, id: int)
    requires exists q :: q in QubitStates(qs) && q.id == id
    ensures FindQubit(qs, id).Some?
  {
    var q :| q in QubitStates(qs) && q.id == id;
    var k :| 0 <= k < |qs| && QubitStates(qs)[k] == q;
  }

  /** One coupler of fromJSON: its endpoints are the first qubits carrying the saved ids. */
  method RestoreCoupler(state: CouplerState, qs: seq<Qubit>) returns (c: Coupler)
    requires exists q :: q in QubitStates(qs) && q.id == state.qubitA
    requires exists q :: q in QubitStates(qs) && q.id == state.qubitB
    ensures fresh(c) && c.qubitA in qs && c.qubitB in qs
    ensures c.ToJSON() == state
  {
    FindSavedEndpoint(qs, state.qubitA);
    FindSavedEndpoint(qs, state.qubitB);
    var a := FindQubit(qs, state.qubitA).value;
    var b := FindQubit(qs, state.qubitB).value;
    c := new Coupler.FromJSON(state, qs[a], qs[b]);
  }

  /** json.couplers.map(c => { let coupler = new Coupler(); coupler.fromJSON(c, this.qubits); return coupler; }). */
  method RestoreCouplers(states: seq<CouplerState>, qs: seq<Qubit>) returns (cs: seq<Coupler>)
    requires Renumbering.EndpointsExist(QubitStates(qs), states)
    ensures DistinctCouplers(cs) && Attached(qs, cs) && forall c :: c in cs ==> fresh(c)
    ensures CouplerStates(cs) == states
  {
    cs := [];
    for i := 0 to |states|
      invariant DistinctCouplers(cs) && Attached(qs, cs) && forall c :: c in cs ==> fresh(c)
      invariant CouplerStates(cs) == states[..i]
    {
      assert states[i] in states;
      var c := RestoreCoupler(states[i], qs);
      AppendCoupler(cs, c);
      cs := cs + [c];
    }
  }

  /** Chip.HasName is checkNamesAllInChip's test on the records. */
  lemma HasNameIsKnown(chip: Chip, v: Selection.PyValue)
    ensures chip.HasName(v) ==
      Selection.KnownName(v, QubitStates(chip.qubits), CouplerStates(chip.couplers), chip.qubitNameLength)
  {
    var L := chip.qubitNameLength;
    assert QubitNames(chip.qubits, L) == Selection.QubitNameList(QubitStates(chip.qubits), L);
    assert CouplerNames(chip.couplers, L) == Selection.CouplerNameList(CouplerStates(chip.couplers), L);
  }

  /** The qubits' forEach of one import group; returns whether any qubit matched. */
  method ApplyToQubits(qs: seq<Qubit>, ghost cs: seq<Coupler>, g: nat, elements: Selection.PyValue, nameLength: int)
    returns (matched: bool)
    requires DistinctQubits(qs) && Attached(qs, cs)
    requires elements.PyOther? ==> qs == []
    modifies qs
    ensures QubitStates(qs) == Selection.ApplyGroupQubits(old(QubitStates(qs)), g, elements, nameLength)
    ensures CouplerStates(cs) == old(CouplerStates(cs))
    ensures matched <==>
      exists k :: 0 <= k < |qs| && Selection.Includes(elements, QubitName(old(QubitStates(qs))[k].id, nameLength)) == Some(true)
  {
    ghost var before := QubitStates(qs);
    ghost var hits := seq(|qs|, k requires 0 <= k < |qs| =>
      Selection.Includes(elements, QubitName(before[k].id, nameLength)) == Some(true));
    matched := MarkQubits(qs, g, elements, nameLength, hits);
    Selection.MarkGroupApplies(before, hits, g, elements, nameLength);
    forall k | 0 <= k < |cs| ensures cs[k].ToJSON() == old(cs[k].ToJSON()) {
      assert cs[k] in cs;
    }
  }

  /** The loop of ApplyToQubits, given which qubits the group names. */
  method MarkQubits(qs: seq<Qubit>, g: nat, elements: Selection.PyValue, nameLength: int, ghost hits: seq<bool>)
    returns (matched: bool)
    requires DistinctQubits(qs)
    requires |hits| == |qs|
    requires forall k :: 0 <= k < |qs| ==> hits[k] == (Selection.Includes(elements, QubitName(qs[k].id, nameLength)) == Some(true))
    modifies qs
    ensures QubitStates(qs) == Selection.MarkGroup(old(QubitStates(qs)), hits, g)
    ensures matched <==> exists k :: 0 <= k < |qs| && hits[k]
  {
    matched := false;
    for i := 0 to |qs|
      invariant forall k :: 0 <= k < i ==> qs[k].ToJSON() == Selection.MarkGroup(old(QubitStates(qs)), hits, g)[k]
      invariant forall k :: i <= k < |qs| ==> qs[k].ToJSON() == old(qs[k].ToJSON())
      invariant matched == AnyBefore(hits, i)
    {
      matched := MarkQubitStep(qs, i, g, elements, nameLength, hits, matched);
    }
    AnyBeforeIff(hits, |qs|);
  }

  /** One pass of that loop. */
  method MarkQubitStep(qs: seq<Qubit>, i: nat, g: nat, elements: Selection.PyValue, nameLength: int, ghost hits: seq<bool>,
                       matched: bool) returns (matched': bool)
    requires DistinctQubits(qs) && i < |qs| == |hits|
    requires hits[i] == (Selection.Includes(elements, QubitName(qs[i].id, nameLength)) == Some(true))
    requires matched == AnyBefore(hits, i)
    modifies qs[i]
    ensures qs[i].ToJSON() == Selection.MarkGroup(old(QubitStates(qs)), hits, g)[i]
    ensures forall k :: 0 <= k < |qs| && k != i ==> qs[k].ToJSON() == old(qs[k].ToJSON())
    ensures matched' == AnyBefore(hits, i + 1)
  {
    var hit := ApplyToQubit(qs[i], g, elements, nameLength, hits[i]);
    matched' := matched || hit;
  }

  /** Some hit among the first n. */
  predicate AnyBefore(hits: seq<bool>, n: nat)
    requires n <= |hits|
  {
    n > 0 && (hits[n - 1] || AnyBefore(hits, n - 1))
  }

  lemma {:induction false} AnyBeforeIff(hits: seq<bool>, n: nat)
    requires n <= |hits|
    ensures AnyBefore(hits, n) <==> exists k :: 0 <= k < n && hits[k]
  {
    if n > 0 {
      AnyBeforeIff(hits, n - 1);
    }
  }

  /** Every qubit's name. */
  function QubitNames(qs: seq<Qubit>, nameLength: int): (r: seq<string>)
    reads qs
    ensures |r| == |qs| && forall k :: 0 <= k < |qs| ==> r[k] == QubitName(qs[k].id, nameLength)
  {
    seq(|qs|, k requires 0 <= k < |qs| reads qs => qs[k].GetName(nameLength))
  }

  /** One qubit's step of that forEach; says whether the group names it. */
  method ApplyToQubit(q: Qubit, g: nat, elements: Selection.PyValue, nameLength: int, ghost named: bool) returns (hit: bool)
    requires named == (Selection.Includes(elements, QubitName(q.id, nameLength)) == Some(true))
    modifies q
    ensures hit == named
    ensures q.ToJSON() == if hit then old(q.ToJSON()).(marks := old(q.Flags()).(selectGroup := Some(g))) else old(q.ToJSON())
  {
    hit := Selection.Includes(elements, q.GetName(nameLength)) == Some(true);
    if hit {
      q.selectGroup := Some(g);
    }
  }

  /** The couplers' forEach of one import group. */
  method ApplyToCouplers(cs: seq<Coupler>, ghost qs: seq<Qubit>, g: nat, elements: Selection.PyValue, nameLength: int)
    requires DistinctCouplers(cs)
    requires elements.PyOther? ==> cs == []
    modifies cs
    ensures CouplerStates(cs) == Selection.ApplyGroupCouplers(old(CouplerStates(cs)), g, elements, nameLength)
    ensures QubitStates(qs) == old(QubitStates(qs))
  {
    ApplyCouplerLoop(cs, g, elements, nameLength);
    forall k | 0 <= k < |qs| ensures qs[k].ToJSON() == old(qs[k].ToJSON()) {
      assert qs[k] in qs;
    }
  }

  /** The loop of ApplyToCouplers. */
  method ApplyCouplerLoop(cs: seq<Coupler>, g: nat, elements: Selection.PyValue, nameLength: int)
    requires DistinctCouplers(cs)
    requires elements.PyOther? ==> cs == []
    modifies cs
    ensures CouplerStates(cs) == Selection.ApplyGroupCouplers(old(CouplerStates(cs)), g, elements, nameLength)
  {
    ghost var names := CouplerNames(cs, nameLength);
    for i := 0 to |cs|
      invariant forall k :: 0 <= k < i ==> cs[k].Flags() == Selection.ApplyGroup(old(cs[k].Flags()), g, elements, names[k])
      invariant forall k :: i <= k < |cs| ==> cs[k].Flags() == old(cs[k].Flags())
    {
      ApplyCouplerStep(cs, i, g, elements, nameLength, names);
    }
  }

  /** One pass of that loop. */
  method ApplyCouplerStep(cs: seq<Coupler>, i: nat, g: nat, elements: Selection.PyValue, nameLength: int,
                          ghost names: seq<string>)
    requires DistinctCouplers(cs) && i < |cs| == |names|
    requires names[i] == cs[i].GetName(nameLength)
    modifies cs[i]
    ensures cs[i].Flags() == Selection.ApplyGroup(old(cs[i].Flags()), g, elements, names[i])
    ensures forall k :: 0 <= k < |cs| && k != i ==> cs[k].Flags() == old(cs[k].Flags())
  {
    var name := cs[i].GetName(nameLength);
    ApplyToCoupler(cs[i], g, elements, name);
  }

  /** Every coupler's name. */
  function CouplerNames(cs: seq<Coupler>, nameLength: int): (r: seq<string>)
    reads Endpoints(cs)
    ensures |r| == |cs| && forall k :: 0 <= k < |cs| ==> r[k] == cs[k].GetName(nameLength)
  {
    seq(|cs|, k requires 0 <= k < |cs| reads Endpoints(cs) => cs[k].GetName(nameLength))
  }

  /** One coupler's step of that forEach. */
  method ApplyToCoupler(c: Coupler, g: nat, elements: Selection.PyValue, name: string)
    modifies c
    ensures c.Flags() == Selection.ApplyGroup(old(c.Flags()), g, elements, name)
  {
    if Selection.Includes(elements, name) == Some(true) {
      c.selectGroup := Some(g);
    }
  }
}

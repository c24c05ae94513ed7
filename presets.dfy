/**
 * loadPresetTopology: the three built-in chips. Each is a generated
 * brick-wall lattice with a fixed list of qubits deleted; "NULL" and any
 * other name leave the current chip in place.
 */
module Presets {
  import opened Common
  import opened Records
  import Lattice
  import Renumbering
  import Chips

  /** The arguments of `new Chip(...)` and of the deleteQubits call that follows it. */
  datatype PresetSpec = PresetSpec(
    width: int, height: int, useOriginAsQubit: bool, qubitStartIdx: int, qubitNameLength: int,
    removed: seq<int>)

  /** The preset a name selects, if any. */
  function PresetOf(name: string): (r: Option<PresetSpec>)
    ensures r.Some? <==> name in {"ZCZ3", "ZCZ2", "Sycamore"}
  {
    if name == "ZCZ3" then Some(PresetSpec(8, 15, true, 1, 3, [1, 31, 61, 91, 23, 53, 83, 113]))
    else if name == "ZCZ2" then Some(PresetSpec(7, 11, false, 0, 2, [12, 25, 38, 51, 64]))
    else if name == "Sycamore" then Some(PresetSpec(7, 9, true, 1, 2, [7, 20, 33, 46, 59]))
    else None
  }

  /** The generated qubits of a preset, before the deletion. */
  function Generated(p: PresetSpec): seq<QubitState> {
    Lattice.LatticeQubits(p.width, p.height, p.useOriginAsQubit, p.qubitStartIdx)
  }

  /** Chip.toJSON of the chip a preset builds. */
  function PresetRecord(p: PresetSpec): ChipRecord {
    var qs := Generated(p);
    ChipRecord(p.width, p.height, p.qubitStartIdx, p.qubitNameLength, p.useOriginAsQubit,
      Renumbering.DeleteQubits(qs, p.removed),
      Renumbering.DeleteCouplers(Lattice.LatticeCouplers(qs), p.removed))
  }

  /** `new Chip(...)` with a preset's parameters, then `deleteQubits` of its list. */
  method Build(p: PresetSpec) returns (chip: Chips.Chip)
    ensures fresh(chip) && chip.Valid()
    ensures chip.ToJSON() == PresetRecord(p)
  {
    chip := new Chips.Chip(p.width, p.height, p.useOriginAsQubit, p.qubitStartIdx, p.qubitNameLength);
    chip.DeleteQubits(p.removed);
  }

  /** loadPresetTopology(name), with storage.chip passed in and the chip to keep returned. */
  method LoadPreset(current: Chips.Chip, name: string) returns (chip: Chips.Chip)
    ensures PresetOf(name).None? ==> chip == current
    ensures PresetOf(name).Some? ==> fresh(chip) && chip.Valid() && chip.ToJSON() == PresetRecord(PresetOf(name).value)
  {
    if name == "NULL" {
      return current;
    }
    var preset := PresetOf(name);
    if preset.Some? {
      chip := Build(preset.value);
    } else {
      chip := current;
    }
  }

  /**
   * A preset's qubits after the deletion: `survivors` of them, numbered
   * qubitStartIdx, qubitStartIdx + 1, ... with no gap, provided the deleted
   * ids are distinct and lie inside the generated range.
   */
  lemma PresetIdsDense(p: PresetSpec, generated: nat, survivors: nat)
    requires Renumbering.NoDuplicates(p.removed)
    requires |Generated(p)| == generated
    requires forall k :: 0 <= k < |p.removed| ==> p.qubitStartIdx <= p.removed[k] < p.qubitStartIdx + generated
    requires survivors == generated - |p.removed|
    ensures |PresetRecord(p).qubits| == survivors
    ensures forall j :: 0 <= j < survivors ==> PresetRecord(p).qubits[j].id == p.qubitStartIdx + j
  {
    var rows := if p.height > 0 then p.height else 0;
    var qs := Generated(p);
    assert qs == Lattice.Qubits(p.width, rows, p.useOriginAsQubit, p.qubitStartIdx);
    Lattice.GeneratedQubits(p.width, rows, p.useOriginAsQubit, p.qubitStartIdx);
    Renumbering.DeleteFromDense(qs, p.removed, p.qubitStartIdx);
    assert PresetRecord(p).qubits == Renumbering.DeleteQubits(qs, p.removed);
  }

  /** ZCZ3: 113 generated qubits, 8 deleted, 105 left numbered 1 to 105. */
  lemma Zcz3Fixture(p: PresetSpec)
    requires p.width == 8 && p.height == 15 && p.useOriginAsQubit && p.qubitStartIdx == 1
    requires p.removed == [1, 31, 61, 91, 23, 53, 83, 113]
    ensures |PresetRecord(p).qubits| == 105
    ensures forall j :: 0 <= j < 105 ==> PresetRecord(p).qubits[j].id == 1 + j
  {
    Zcz3Size(p.width, p.height, p.useOriginAsQubit, p.qubitStartIdx);
    Zcz3Removed(p.qubitStartIdx, p.removed);
    PresetIdsDense(p, 113, 105);
  }

  /** The fixture's fields are those `PresetOf("ZCZ3")` holds, the name aside. */
  lemma Zcz3IsPreset(p: PresetSpec)
    requires p.width == 8 && p.height == 15 && p.useOriginAsQubit && p.qubitStartIdx == 1
    requires p.removed == [1, 31, 61, 91, 23, 53, 83, 113]
    ensures PresetOf("ZCZ3").Some?
    ensures PresetOf("ZCZ3").value == p.(qubitNameLength := PresetOf("ZCZ3").value.qubitNameLength)
  {
  }

  lemma Zcz3Size(width: int, height: int, useOriginAsQubit: bool, start: int)
    requires width == 8 && height == 15 && useOriginAsQubit
    ensures |Lattice.LatticeQubits(width, height, useOriginAsQubit, start)| == 113
  {
    Lattice.LatticeSizeOfRowPairs(width, height, 7, useOriginAsQubit, start);
  }

  lemma Zcz3Removed(start: int, removed: seq<int>)
    requires start == 1 && removed == [1, 31, 61, 91, 23, 53, 83, 113]
    ensures Renumbering.NoDuplicates(removed)
    ensures forall k :: 0 <= k < |removed| ==> start <= removed[k] < start + 113
  {
  }

  /** ZCZ2: 71 generated qubits, 5 deleted, 66 left numbered 0 to 65. */
  lemma Zcz2Fixture(p: PresetSpec)
    requires p.width == 7 && p.height == 11 && !p.useOriginAsQubit && p.qubitStartIdx == 0
    requires p.removed == [12, 25, 38, 51, 64]
    ensures |PresetRecord(p).qubits| == 66
    ensures forall j :: 0 <= j < 66 ==> PresetRecord(p).qubits[j].id == j
  {
    Zcz2Size(p.width, p.height, p.useOriginAsQubit, p.qubitStartIdx);
    Zcz2Removed(p.qubitStartIdx, p.removed);
    PresetIdsDense(p, 71, 66);
  }

  /** The fixture's fields are those `PresetOf("ZCZ2")` holds, the name aside. */
  lemma Zcz2IsPreset(p: PresetSpec)
    requires p.width == 7 && p.height == 11 && !p.useOriginAsQubit && p.qubitStartIdx == 0
    requires p.removed == [12, 25, 38, 51, 64]
    ensures PresetOf("ZCZ2").Some?
    ensures PresetOf("ZCZ2").value == p.(qubitNameLength := PresetOf("ZCZ2").value.qubitNameLength)
  {
  }

  lemma Zcz2Size(width: int, height: int, useOriginAsQubit: bool, start: int)
    requires width == 7 && height == 11 && !useOriginAsQubit
    ensures |Lattice.LatticeQubits(width, height, useOriginAsQubit, start)| == 71
  {
    Lattice.LatticeSizeOfRowPairs(width, height, 5, useOriginAsQubit, start);
  }

  lemma Zcz2Removed(start: int, removed: seq<int>)
    requires start == 0 && removed == [12, 25, 38, 51, 64]
    ensures Renumbering.NoDuplicates(removed)
    ensures forall k :: 0 <= k < |removed| ==> start <= removed[k] < start + 71
  {
  }

  /** Sycamore: 59 generated qubits, 5 deleted, 54 left numbered 1 to 54. */
  lemma SycamoreFixture(p: PresetSpec)
    requires p.width == 7 && p.height == 9 && p.useOriginAsQubit && p.qubitStartIdx == 1
    requires p.removed == [7, 20, 33, 46, 59]
    ensures |PresetRecord(p).qubits| == 54
    ensures forall j :: 0 <= j < 54 ==> PresetRecord(p).qubits[j].id == 1 + j
  {
    SycamoreSize(p.width, p.height, p.useOriginAsQubit, p.qubitStartIdx);
    SycamoreRemoved(p.qubitStartIdx, p.removed);
    PresetIdsDense(p, 59, 54);
  }

  /** The fixture's fields are those `PresetOf("Sycamore")` holds, the name aside. */
  lemma SycamoreIsPreset(p: PresetSpec)
    requires p.width == 7 && p.height == 9 && p.useOriginAsQubit && p.qubitStartIdx == 1
    requires p.removed == [7, 20, 33, 46, 59]
    ensures PresetOf("Sycamore").Some?
    ensures PresetOf("Sycamore").value == p.(qubitNameLength := PresetOf("Sycamore").value.qubitNameLength)
  {
  }

  lemma SycamoreSize(width: int, height: int, useOriginAsQubit: bool, start: int)
    requires width == 7 && height == 9 && useOriginAsQubit
    ensures |Lattice.LatticeQubits(width, height, useOriginAsQubit, start)| == 59
  {
    Lattice.LatticeSizeOfRowPairs(width, height, 4, useOriginAsQubit, start);
  }

  lemma SycamoreRemoved(start: int, removed: seq<int>)
    requires start == 1 && removed == [7, 20, 33, 46, 59]
    ensures Renumbering.NoDuplicates(removed)
    ensures forall k :: 0 <= k < |removed| ==> start <= removed[k] < start + 59
  {
  }
}

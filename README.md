# qselector chip editor — a Dafny model

qselector is a browser tool for drawing a superconducting-qubit chip and
picking groups of qubits and couplers on it. Its core, `sketch.js`, holds three
classes. A `Qubit` has an id, a lattice position and three marks: `disabled`,
`selectGroup` and `attribute`. A `Coupler` joins two qubit objects and carries
the same marks. A `Chip` generates a brick-wall lattice of qubits and the
diagonal couplers between them, and then edits it:

- clicks toggle, select or annotate an element, depending on the mode;
- a drag selects every element in a rectangle;
- a double click deletes a qubit and renumbers the rest;
- the selection is exported as Python-literal text and imported back;
- `toJSON`/`fromJSON` save and restore the chip;
- three preset chips are a generated lattice with a fixed list of qubits deleted.

This project models that core in Dafny.

- `Qubit`, `Coupler` and `Chip` are classes whose methods update their fields
  in place, as the JavaScript does.
- Couplers keep references to their endpoint qubit objects. Renumbering a
  qubit therefore renumbers the couplers that point at it, through aliasing.
- Every method is specified by the `toJSON` record it leaves behind. That
  record is stated as a function of the record before the call.
- The pure functions on records (`Records`, `Renumbering`, `Lattice`,
  `Selection`, `Editing`) are the specification. The lemmas about them state
  what the editor promises, for example:
  - the generated lattice has dense ids and no duplicate couplers;
  - deleting qubits keeps ids dense and leaves no dangling coupler;
  - a qubit name reads back as its id;
  - exporting a selection and importing it again restores it, up to the
    loss of a lone group's index. For couplers this holds only while no two
    couplers share a name.

Modules, one per file:

| file | module | what it holds |
|---|---|---|
| common.dfy | Common | `Option`, sequence concatenation |
| naming.dfy | Naming | `getName` of qubits and couplers, JavaScript string order, reading a name back |
| records.dfy | Records | the `toJSON` records and what `handleSelect`, `reset` and the counters do to marks |
| modes.dfy | Modes | the five modes, `isListMode`/`isAttrMode`, the mode-change reset rule |
| renumbering.dfy | Renumbering | `deleteQubit`/`deleteQubits` on records |
| lattice.dfy | Lattice | what `initialize` generates, on records |
| topology.dfy | Topology | classes `Qubit` and `Coupler`, and `initialize` as loops over objects |
| selection.dfy | Selection | `get*PythonObject`, `checkNamesAllInChip`, the list branch of `importSelections` |
| editing.dfy | Editing | `handleClick` and `handleDrag` on records |
| chip.dfy | Chips | class `Chip` and its methods |
| presets.dfy | Presets | `loadPresetTopology` |

Inputs that come from outside the chip are parameters:

- the mode (`storage.mode`);
- the group chosen in the drop-down;
- the text typed into a prompt (`None` when it is cancelled);
- which element the pointer hits, as an index;
- the drag rectangle, in lattice coordinates;
- the parsed JSON value given to the import.

JavaScript's `null` and `undefined` become `Option`. A `selectGroup` is a
`nat`. An import can set any index, and the export then throws a `TypeError`
for an index of 4 or more, as `selectedGroups[g].push` does; the model returns
that error as a value.

## Model

| member | source | states |
|---|---|---|
| Topology.Qubit.constructor | sketch.js:131-138 | a new qubit has the given id and position, is enabled, has no group and no attribute |
| Topology.Qubit.FromJSON | sketch.js:195-202 | fromJSON on a fresh qubit restores exactly the saved record |
| Topology.Qubit.ToJSON | sketch.js:184-193 | the record carries the id, the coordinates and the three marks |
| Topology.Qubit.HandleSelect | sketch.js:140-148 | handleSelect changes the marks as Records.Select says and leaves the id and position alone |
| Topology.Qubit.Reset | sketch.js:179-182 | reset clears the group and the attribute and leaves everything else alone |
| Topology.Coupler.constructor | sketch.js:206-212 | a new coupler joins the two given qubit objects with fresh marks |
| Topology.Coupler.FromJSON | sketch.js:274-280 | fromJSON with the two endpoint qubits found restores the saved marks |
| Topology.Coupler.ToJSON | sketch.js:264-272 | the record names the endpoints by their current ids and carries the marks |
| Topology.Coupler.HandleSelect | sketch.js:232-240 | the coupler's marks change as Records.Select says |
| Topology.Coupler.Reset | sketch.js:259-262 | the coupler's marks change as Records.Clear says |
| Records.Select | sketch.js:140-148 | a disabled element is unchanged; a selected element is deselected unless doNotReset; otherwise it joins the group; the other marks are kept |
| Records.Clear | sketch.js:179-182 | after reset the element is unselected, has no attribute and keeps `disabled` |
| Records.ToggleDisabled | sketch.js:416 | a Topology click flips `disabled` and keeps the group and the attribute |
| Records.Annotate | sketch.js:420-433 | a cancelled prompt changes nothing; an empty answer clears; any other answer sets group 0 and that attribute, disabled or not |
| Records.ClickTwiceRestores | sketch.js:140-148 | two list-mode clicks on an enabled, unselected element give back the element |
| Records.DragIdempotent | sketch.js:140-148 | handleSelect(true) twice is the same as once |
| Records.ClearIdempotent | sketch.js:179-182 | reset is idempotent and commutes with toggling `disabled` |
| Records.ActivePlusDisabled | sketch.js:307-313 | active plus disabled is the total, so the panel's "Disabled" figure counts the disabled elements; selected is at most the total |
| Records.ResetCounts | sketch.js:349-352 | after a reset nothing is selected and the active count is unchanged |
| Records.ResetQubits | sketch.js:349-352 | Chip.reset clears the marks of every qubit, one for one |
| Records.ResetCouplers | sketch.js:349-352 | Chip.reset clears the marks of every coupler, one for one |
| Records.ResetIdempotent | sketch.js:349-352 | Chip.reset is idempotent and changes only the marks |
| Modes.ModesPartition | sketch.js:947-953 | every mode is exactly one of Topology, a list mode or an attribute mode |
| Modes.ResetRule | sketch.js:739-746 | a mode change resets the chip exactly when it leaves Topology or crosses between list and attribute modes |
| Naming.PadStartShape | sketch.js:175-177 | padStart adds only '0's in front, up to the requested length, and never shortens |
| Naming.NatToStringShape | sketch.js:175-177 | toString of a natural number is a non-empty run of digits with no leading zero |
| Naming.DigitsValueOfNat | sketch.js:175-177 | the digits toString writes read back as the number |
| Naming.QubitNameRoundTrip | sketch.js:175-177 | every qubit name reads back as its id, negative ids and any padding length included |
| Naming.QubitNameInjective | sketch.js:175-177 | distinct ids get distinct qubit names |
| Naming.StrLessTotal | sketch.js:254 | JavaScript's `>` on the two names is a strict total order, so exactly one name is put first |
| Naming.CouplerNameSymmetric | sketch.js:251-257 | a coupler's name does not depend on which endpoint is qubitA |
| Naming.CouplerNameOrder | sketch.js:251-257 | a coupler name is "G", then the larger qubit name's suffix, then the smaller one's |
| Naming.QubitAndCouplerNamesDiffer | sketch.js:251-257 | no coupler name equals a qubit name |
| Naming.CouplerNamesCollide | sketch.js:251-257 | two different couplers can share a name: with qubitNameLength 1, Q3-Q12 and Q31-Q2 are both "G312" |
| Renumbering.CountBelow | sketch.js:344 | counts the listed ids below v, never more than the list holds |
| Renumbering.KeepQubits | sketch.js:338 | the qubit filter keeps exactly the unlisted qubits and never lengthens the list |
| Renumbering.KeepCouplers | sketch.js:339-341 | the coupler filter keeps exactly the couplers with neither endpoint listed |
| Renumbering.KeptQubitIndices | sketch.js:338 | the positions the qubit filter keeps: exactly those of unlisted qubits, strictly increasing |
| Renumbering.KeptCouplerIndices | sketch.js:339-341 | the positions the coupler filter keeps: exactly those of couplers with neither endpoint listed, strictly increasing |
| Renumbering.KeepQubitsInOrder | sketch.js:338 | `filter` keeps order and multiplicity: element j of the result is the qubit at the j-th kept position |
| Renumbering.KeepCouplersInOrder | sketch.js:339-341 | likewise for the coupler filter |
| Renumbering.ShiftQubits | sketch.js:343-345 | each surviving id is lowered by the number of listed ids below it; nothing else changes |
| Renumbering.ShiftCouplers | sketch.js:343-345 | each surviving coupler's endpoint ids get the same shift as their qubits |
| Renumbering.CountBelowStep | sketch.js:344 | one more unit of threshold adds the occurrences of that id |
| Renumbering.KeptDense | sketch.js:337-347 | for a run of consecutive ids, the survivors get consecutive new ids and their number is the run minus the listed ids inside it |
| Renumbering.DeleteKeepsIdsDense | sketch.js:337-347 | deleteQubits on densely numbered qubits leaves them densely numbered, with the count and first id stated |
| Renumbering.DeleteFromDense | sketch.js:337-347 | deleting distinct ids inside the range leaves qubits numbered from the same first id with no gap |
| Renumbering.CountBelowRange | sketch.js:344 | ids inside [lo, hi) are all below hi and none below lo |
| Renumbering.DeleteQubitsSurvivors | sketch.js:337-347 | survivor j is the qubit at the j-th kept position, in the old order, with its id lowered by the listed ids below it |
| Renumbering.NewIdMonotone | sketch.js:343-345 | the renumbering keeps surviving ids strictly increasing |
| Renumbering.NewIdMonotoneFrom | sketch.js:343-345 | the renumbering never reverses two ids |
| Renumbering.DeleteCouplersCascade | sketch.js:339-341 | no surviving coupler touches a deleted qubit, and each survivor is an old coupler with renumbered ends |
| Renumbering.SurvivorRenamed | sketch.js:337-347 | a qubit that is not deleted is still there under its new id |
| Renumbering.DeletePreservesEndpoints | sketch.js:337-347 | if every coupler endpoint named a qubit before, every one still does afterwards |
| Renumbering.DeleteQubitIsSingleCase | sketch.js:323-347 | deleteQubit(k) is deleteQubits([k]), for the qubits and for the couplers |
| Renumbering.KeepQubitsSingle | sketch.js:324-325 | deleteQubit's qubit filter is deleteQubits' filter with a one-element list |
| Renumbering.KeepCouplersSingle | sketch.js:326-328 | deleteQubit's coupler filter is deleteQubits' filter with a one-element list |
| Lattice.Row | sketch.js:499-508 | a row has width minus its offset qubits, at x = 2c + offset, numbered on from its first id |
| Lattice.CouplersOfStep | sketch.js:513-524 | the coupler loop one qubit further appends that qubit's couplers |
| Lattice.QubitsSize | sketch.js:498-510 | the generated qubit count is the sum of the row lengths |
| Lattice.NextRow | sketch.js:498-510 | one more row appends that row, numbered on from the qubits before it |
| Lattice.RowStep | sketch.js:501-508 | the inner loop one column further appends that column's site |
| Lattice.SizeOfRowPairs | sketch.js:498-503 | every pair of rows holds 2 * width - 1 qubits |
| Lattice.LatticeSizeOfRowPairs | sketch.js:498-503 | closed form for the qubit count of an even or odd number of rows |
| Lattice.SizeMonotone | sketch.js:498-510 | more rows never hold fewer qubits |
| Lattice.QubitAt | sketch.js:498-510 | column c of row y is at index Size(y) + c, with id start + index |
| Lattice.EarlierRowAt | sketch.js:498-510 | adding a row moves none of the earlier qubits |
| Lattice.LastRowAt | sketch.js:498-510 | the new row's column c lands at index Size(y) + c |
| Lattice.QubitIsSite | sketch.js:498-510 | every generated qubit is the site of a row and column |
| Lattice.SiteOf | sketch.js:498-510 | the qubit at index k is the site of its row and column, with id start + k |
| Lattice.GeneratedQubits | sketch.js:493-510 | ids run start, start + 1, ...; qubits are fresh, inside the rows and in row-major order |
| Lattice.PrefixLatticeLike | sketch.js:498-510 | every prefix of the generated qubits keeps those facts |
| Lattice.CoordDictEntry | sketch.js:506 | whatever qubitDict holds at a position is a qubit standing there |
| Lattice.CoordDictHit | sketch.js:506 | a qubit that no later qubit shares a position with is what qubitDict finds there |
| Lattice.LatticeDictHit | sketch.js:505-519 | in a generated lattice qubitDict finds every qubit at its own position |
| Lattice.ProbeIsLater | sketch.js:514-517 | the qubit a probe finds comes later in the generation order |
| Lattice.CouplerEndsPrefix | sketch.js:513-524 | each coupler made so far joins a visited qubit to a later diagonal neighbour |
| Lattice.CouplerEnds | sketch.js:513-524 | every generated coupler joins a qubit to a later diagonal neighbour, so there is never a self-loop |
| Lattice.LinksIncluded | sketch.js:513-524 | every coupler of one visited qubit is among the generated couplers |
| Lattice.NeighboursCoupled | sketch.js:513-524 | every pair of diagonal neighbours is coupled, with the upper qubit as qubitA |
| Lattice.LinksSorted | sketch.js:514-517 | one qubit's couplers come out in increasing endpoint order |
| Lattice.CouplersSortedPrefix | sketch.js:513-524 | the couplers come out in strictly increasing (qubitA, qubitB) order |
| Lattice.CouplersDistinct | sketch.js:513-524 | no qubit pair is coupled twice, in either orientation |
| Topology.QubitStates | sketch.js:563 | `qubits.map(q => q.toJSON())`, element by element |
| Topology.CouplerStates | sketch.js:564 | `couplers.map(c => c.toJSON())`, element by element |
| Topology.DictAgrees | sketch.js:505-519 | with unique positions, the object qubitDict finds what the record-level dictionary finds |
| Topology.PlaceRow | sketch.js:499-508 | the inner loop appends row y, numbered from the current qid, and keeps qubitDict matching |
| Topology.PushQubit | sketch.js:504-507 | one pass appends `new Qubit(qid, posX, y)` and records it under its position |
| Topology.PlaceQubits | sketch.js:498-510 | the row loops produce exactly the lattice's qubits, as fresh and distinct objects |
| Topology.Probe | sketch.js:514-519 | a probe yields one coupler exactly when qubitDict has a qubit at the position, from the visited qubit to that one |
| Topology.ProbesAreLinks | sketch.js:514-517 | the two probes of a qubit are the couplers the lattice specification gives it |
| Topology.Link | sketch.js:518-521 | one probe appends its coupler, if any, and keeps the couplers attached and distinct |
| Topology.LinkQubit | sketch.js:513-523 | one pass of the coupler loop appends that qubit's couplers |
| Topology.AddCouplers | sketch.js:512-524 | the coupler loop produces exactly the lattice's couplers, attached to the chip's qubits |
| Topology.Initialize | sketch.js:493-526 | initialize returns fresh, distinct objects whose records are the generated lattice |
| Selection.QubitEntries | sketch.js:359-362 | each qubit is exported under its getName() with its marks |
| Selection.CouplerEntries | sketch.js:384-388 | each coupler is exported under its getName() with its marks |
| Selection.Buckets | sketch.js:357-363 | the four buckets exist exactly when every selected group is below 4 |
| Selection.BucketsStep | sketch.js:359-363 | the forEach one element further pushes that element's name into its group's bucket |
| Selection.BucketMembers | sketch.js:359-362 | a name is in bucket g exactly when some entry of that name is selected in group g |
| Selection.NonEmptyCount | sketch.js:369 | counts the non-empty buckets, at most the number of buckets |
| Selection.Export | sketch.js:354-379 | `undefined` exactly in Topology mode; a TypeError exactly in list mode with a group of 4 or more; otherwise the attribute text in attribute modes |
| Selection.Strs | sketch.js:370 | the names as Python strings, one for one |
| Selection.FlattenNonEmpty | sketch.js:369-370 | with a non-empty bucket the flat list is non-empty |
| Selection.ExportedValue | sketch.js:365-376 | the exported list is empty exactly when no bucket is |
| Selection.ListTextIsShow | sketch.js:370 | the list text is the Python notation of the list of names |
| Selection.ExportIsShow | sketch.js:365-376 | the list-mode export text is the notation of ExportedValue: the value the import receives |
| Selection.Flat | sketch.js:659 | `.flat()` keeps every non-list item and every item of a nested list |
| Selection.QubitNameList | sketch.js:957 | every qubit's name, in order |
| Selection.CouplerNameList | sketch.js:958 | every coupler's name, in order |
| Selection.UnknownMembers | sketch.js:955-964 | the alerts name exactly the inputs that are neither a qubit's nor a coupler's name, and no more often than they occur |
| Selection.UnknownStep | sketch.js:956-963 | the check scans the names front to back |
| Selection.ContainsIff | sketch.js:669 | `includes` on a string is true exactly when the name occurs in it |
| Selection.Includes | sketch.js:669-675 | `elements.includes(name)` throws on a value with no `includes`, and on an array is membership |
| Selection.FirstFailure | sketch.js:667-679 | the first group with no `includes` method: where the loop throws |
| Selection.AppliedUpTo | sketch.js:667-679 | when the loop throws at group g, the groups before g are applied |
| Selection.AppliedAll | sketch.js:667-679 | when no group throws, every group is applied |
| Selection.LastGroup | sketch.js:667-679 | the last group that includes a name, and no later one does |
| Selection.ImportQubits | sketch.js:668-672 | each qubit ends in the last group naming it, or keeps its marks; `disabled` is not consulted |
| Selection.ImportCouplers | sketch.js:673-677 | each coupler ends in the last group naming it, or keeps its marks |
| Selection.AnyQubitMatch | sketch.js:670-671 | qubitUpdated is set exactly when some qubit's name is in some group |
| Selection.ApplyGroupQubits | sketch.js:668-672 | one group's qubit pass moves exactly the named qubits into the group |
| Selection.MarkGroup | sketch.js:668-672 | the same pass, given which qubits are named |
| Selection.MarkGroupApplies | sketch.js:668-672 | with hits computed by `includes`, MarkGroup is that pass |
| Selection.ApplyGroupCouplers | sketch.js:673-677 | one group's coupler pass moves exactly the named couplers into the group |
| Selection.LastGroupSnoc | sketch.js:667-679 | a later group overrides the earlier ones for the names it includes |
| Selection.ImportQubitsSnoc | sketch.js:667-672 | applying the groups in order is applying them one at a time |
| Selection.ImportCouplersSnoc | sketch.js:673-677 | likewise for the couplers |
| Selection.AnyQubitMatchSnoc | sketch.js:670-671 | qubitUpdated after one more group: it was already set, or the new group names a qubit |
| Selection.ImportStep | sketch.js:667-679 | group g of the loop applied to what the earlier groups left |
| Selection.Deselect | sketch.js:180 | the starting state of the round trip: every qubit's `selectGroup` is null and nothing else changes |
| Selection.LastGroupIs | sketch.js:667-679 | LastGroup when exactly a known set of groups includes the name |
| Selection.QubitNamesDistinct | sketch.js:175-177 | distinct ids export distinct names |
| Selection.NestedMembership | sketch.js:359-362 | with distinct names, an entry's name is in bucket g exactly when g is its group |
| Selection.CouplerNotInQubitBucket | sketch.js:359-362 | no coupler name appears in a qubit export |
| Selection.NestedGroups | sketch.js:374-376 | the nested export read back has one list of names per bucket |
| Selection.NestedEntry | sketch.js:667-679 | a qubit of a nested export comes back in its own group |
| Selection.NestedCoupler | sketch.js:673-677 | a qubit export names no coupler |
| Selection.NestedQubits | sketch.js:667-672 | a nested export imported into the deselected chip restores every qubit |
| Selection.NestedCouplers | sketch.js:673-677 | a nested qubit export leaves every coupler alone |
| Selection.NestedMatches | sketch.js:680-684 | a nested qubit export sets qubitUpdated |
| Selection.NestedRoundTrip | sketch.js:657-684 | two or more groups: import restores the qubits exactly, leaves the couplers and selects Qubit mode |
| Selection.NonEmptyWitness | sketch.js:369 | a non-zero count has a non-empty bucket |
| Selection.FlattenMembers | sketch.js:370 | a name is in the flat list exactly when it is in some bucket |
| Selection.ExportedGroups | sketch.js:664-666 | a non-empty export becomes one flat group or the nested groups, and none of them throws |
| Selection.FlatMembership | sketch.js:369-371 | a flat export holds exactly the names of the selected entries |
| Selection.FlatEntry | sketch.js:664-679 | with a single exported group, a qubit comes back in group 0 exactly when it was selected |
| Selection.ReimportedQubit | sketch.js:657-684 | after the round trip a qubit's group is its old one, or 0 for a lone group |
| Selection.NamesNotExported | sketch.js:667-679 | a name that was not exported is in no import group |
| Selection.EmptyExport | sketch.js:365-367 | an empty export means nothing was selected |
| Selection.ReimportedQubits | sketch.js:657-684 | the round trip for every qubit at once |
| Selection.UntouchedCouplers | sketch.js:673-677 | a qubit export re-imported leaves every coupler alone |
| Selection.ReimportMatches | sketch.js:680-684 | a non-empty qubit export re-imported sets qubitUpdated |
| Selection.ExportThenImport | sketch.js:657-684 | export, then import into the deselected chip: couplers untouched; no groups gives no mode change; otherwise Qubit mode, lone groups come back as 0, several groups exactly |
| Selection.NoneEmpty | sketch.js:365 | a zero count means every bucket is empty |
| Selection.CouplerExportSelectsCouplerMode | sketch.js:680-684 | a coupler export re-imported leaves every qubit alone and selects Coupler mode |
| Selection.DeselectCouplers | sketch.js:260 | the starting state of the coupler round trip: every coupler's `selectGroup` is null and nothing else changes |
| Selection.ReimportedCoupler | sketch.js:657-684 | with distinct coupler names, a coupler's group after the round trip is its old one, or 0 for a lone group |
| Selection.ReimportedCouplers | sketch.js:657-684 | the coupler round trip for every coupler at once |
| Selection.CouplerEmptyExport | sketch.js:390-392 | an empty coupler export means no coupler was selected |
| Selection.CouplerExportThenImport | sketch.js:657-684 | with distinct coupler names: the qubits are untouched; no groups gives no mode change; otherwise Coupler mode, lone groups come back as 0, several groups exactly |
| Selection.LoneGroupBecomesZero | sketch.js:369-371 | a qubit alone in group 1 is exported flat and comes back in group 0 |
| Editing.Click | sketch.js:411-463 | a click changes at most the element hit; a qubit hit in a qubit mode leaves the couplers; modes that skip qubits or couplers leave them; ids and positions never change |
| Editing.TopologyClickTwice | sketch.js:411-463 | two Topology clicks on the same spot undo each other |
| Editing.DisabledIgnoresSelection | sketch.js:140-148 | in Qubit or Coupler mode a click on a disabled element changes nothing |
| Editing.AttributeIgnoresDisabled | sketch.js:420-435 | an attribute click annotates even a disabled qubit |
| Editing.CountActiveUpdate | sketch.js:307-309 | changing one element's marks moves the active count by the change in that element alone |
| Editing.ToggleMovesActiveCount | sketch.js:307-309 | a Topology click on a qubit moves the active count by exactly one, up or down |
| Editing.DragQubits | sketch.js:477-482 | every enabled qubit in the box joins the group; the rest keep their marks |
| Editing.DragCouplers | sketch.js:483-489 | every enabled coupler with an endpoint in the box joins the group; the rest keep their marks |
| Editing.DragSelectsBox | sketch.js:476-491 | after a drag every enabled qubit in the box is selected in the group, and the others are as they were |
| Editing.DragTwice | sketch.js:476-491 | dragging the same box twice is dragging it once |
| Chips.Chip.constructor | sketch.js:284-291 | a new chip is well formed and its record is the generated lattice |
| Chips.Chip.FromJSON | sketch.js:568-584 | restoring a saved record gives a well-formed chip whose toJSON is that record |
| Chips.Chip.GetSelectedQubitsPythonObject | sketch.js:354-379 | the result is Export of the qubits' entries in the given mode |
| Chips.Chip.GetSelectedCouplersPythonObject | sketch.js:381-403 | the result is Export of the couplers' entries in the given mode |
| Chips.Chip.CheckNamesAllInChip | sketch.js:955-964 | the alerted names are Selection.Unknown of the chip's records |
| Chips.Chip.ImportSelections | sketch.js:657-684 | the new records, the mode and the alerts are those of Selection.ImportList |
| Chips.Chip.ApplyGroups | sketch.js:667-679 | the loop applies the groups up to the first that throws, and reports qubitUpdated only when it completed |
| Chips.Chip.RunGroups | sketch.js:667-679 | the loop stops exactly at the first throwing group, and never throws on an empty chip |
| Chips.Chip.ImportGroup | sketch.js:667-679 | group g's two passes advance the records by one group |
| Chips.Chip.NumActiveQubits | sketch.js:307-309 | at most the qubit count; the rest are the disabled qubits |
| Chips.Chip.NumActiveCouplers | sketch.js:311-313 | at most the coupler count; the rest are the disabled couplers |
| Chips.Chip.NumSelectedQubits | sketch.js:315-317 | at most the qubit count |
| Chips.Chip.NumSelectedCouplers | sketch.js:319-321 | at most the coupler count |
| Chips.Chip.Reset | sketch.js:349-352 | the record after reset has every mark cleared as Records.ResetQubits and Records.ResetCouplers say |
| Chips.Chip.DeleteQubits | sketch.js:337-347 | the chip stays well formed and its record is Renumbering's deleteQubits of the old one |
| Chips.Chip.DeleteQubit | sketch.js:323-335 | the chip stays well formed and its record is Renumbering's deleteQubit of the old one |
| Chips.Chip.HandleClick | sketch.js:411-463 | the record after the click is Editing.Click of the record before |
| Chips.Chip.HandleDoubleClick | sketch.js:465-474 | in Topology mode the hit qubit is deleted by id; otherwise nothing changes |
| Chips.Chip.HandleDrag | sketch.js:476-491 | Qubit mode drags the qubits; any other mode drags the couplers with an endpoint in the box |
| Chips.Chip.SwitchMode | sketch.js:739-746 | the chip is reset exactly when Modes.ResetsOnModeChange holds, and is otherwise unchanged |
| Chips.Chip.KeepSurvivors | sketch.js:338-341 | the two filters keep the records KeepQubits and KeepCouplers keep, and the chip stays well formed |
| Chips.Survivors | sketch.js:338-341 | the filtered objects have the filtered records, stay distinct and keep every coupler attached |
| Chips.SurvivorsAttached | sketch.js:338-341 | a coupler that survives has kept both its endpoints |
| Chips.AttachedEndpointsExist | sketch.js:556-584 | every record a well-formed chip saves can be restored: each endpoint id names a saved qubit |
| Chips.ResetAllQubits | sketch.js:350 | each qubit's marks are cleared and the couplers' records are unchanged |
| Chips.ResetAllCouplers | sketch.js:351 | each coupler's marks are cleared |
| Chips.QubitStatesConcat | sketch.js:563 | the records of a concatenation are the concatenated records |
| Chips.CouplerStatesConcat | sketch.js:564 | likewise for couplers |
| Chips.SurvivingQubits | sketch.js:338 | the object filter keeps exactly the qubits whose id is not listed |
| Chips.SurvivingCouplers | sketch.js:339-341 | the object filter keeps exactly the couplers with neither endpoint id listed |
| Chips.SurvivingQubitsStates | sketch.js:338 | the object filter keeps exactly the records KeepQubits keeps |
| Chips.SurvivingQubitsDistinct | sketch.js:338 | the filter lists no qubit twice |
| Chips.SurvivingCouplersStates | sketch.js:339-341 | the object filter keeps exactly the records KeepCouplers keeps |
| Chips.SurvivingCouplersDistinct | sketch.js:339-341 | the filter lists no coupler twice |
| Chips.ShiftIds | sketch.js:343-345 | the id pass gives ShiftQubits, and the couplers see ShiftCouplers through their endpoints |
| Chips.LowerIds | sketch.js:329-333 | every id above qid is lowered by one, in the qubits and through them in the couplers |
| Chips.ClickQubit | sketch.js:416-435 | the clicked qubit's marks become Editing.ClickMarks of the old ones |
| Chips.ClickCoupler | sketch.js:444-458 | the clicked coupler's marks become Editing.ClickMarks of the old ones |
| Chips.ClickQubitAt | sketch.js:414-437 | only qubit i changes, and the couplers' records stay |
| Chips.ClickCouplerAt | sketch.js:441-460 | only coupler j changes |
| Chips.CouplerHits | sketch.js:242-249 | a coupler is hit exactly when either endpoint lies in the box |
| Chips.DragQubitObjects | sketch.js:478-482 | the qubit loop gives Editing.DragQubits, and the couplers' records stay |
| Chips.DragCouplerObjects | sketch.js:484-488 | the coupler loop gives Editing.DragCouplers |
| Chips.RestoreQubits | sketch.js:574-578 | fresh, distinct qubits whose records are the saved ones |
| Chips.FindQubit | sketch.js:275-276 | `find` returns the first qubit with the id, or nothing when none has it |
| Chips.FindSavedEndpoint | sketch.js:275-276 | a saved endpoint id that names a qubit is found |
| Chips.RestoreCoupler | sketch.js:274-280 | a fresh coupler whose endpoints are chip qubits and whose record is the saved one |
| Chips.RestoreCouplers | sketch.js:579-583 | fresh, distinct, attached couplers whose records are the saved ones |
| Chips.HasNameIsKnown | sketch.js:957-958 | the chip's name test is Selection.KnownName on its records |
| Chips.ApplyToQubits | sketch.js:668-672 | one group's qubit pass gives ApplyGroupQubits and says whether any qubit matched |
| Chips.MarkQubits | sketch.js:668-672 | the pass gives MarkGroup and reports a match exactly when some qubit was named |
| Chips.MarkQubitStep | sketch.js:669-671 | one qubit is updated and the others are left alone |
| Chips.AnyBeforeIff | sketch.js:671 | the running qubitUpdated flag is "some hit so far" |
| Chips.QubitNames | sketch.js:669 | every qubit's name, in order |
| Chips.ApplyToQubit | sketch.js:669-671 | a named qubit joins group g, and an unnamed one is unchanged |
| Chips.ApplyToCouplers | sketch.js:673-677 | one group's coupler pass gives ApplyGroupCouplers and leaves the qubits |
| Chips.ApplyCouplerLoop | sketch.js:673-677 | the loop gives ApplyGroupCouplers |
| Chips.ApplyCouplerStep | sketch.js:674-676 | one coupler is updated and the others are left alone |
| Chips.CouplerNames | sketch.js:675 | every coupler's name, in order |
| Chips.ApplyToCoupler | sketch.js:675-676 | a named coupler joins group g |
| Presets.PresetOf | sketch.js:764-777 | exactly "ZCZ3", "ZCZ2" and "Sycamore" select a preset |
| Presets.Build | sketch.js:767-775 | `new Chip(...)` then `deleteQubits(list)` gives a well-formed chip with the preset's record |
| Presets.LoadPreset | sketch.js:764-777 | a known name builds a fresh chip with its preset's record; "NULL" and any other name keep the current chip |
| Presets.PresetIdsDense | sketch.js:764-777 | with distinct deleted ids inside the generated range, the preset's qubits are numbered from qubitStartIdx with no gap |
| Presets.Zcz3Fixture | sketch.js:767-769 | ZCZ3: 113 generated, 8 deleted, 105 left, numbered 1 to 105 |
| Presets.Zcz3Size | sketch.js:768 | `Chip(8, 15, true, ...)` generates 113 qubits |
| Presets.Zcz3Removed | sketch.js:769 | ZCZ3's list has no repeats and lies in 1..113 |
| Presets.Zcz3IsPreset | sketch.js:767-769 | the fixture's parameters are the ones `PresetOf("ZCZ3")` selects |
| Presets.Zcz2Fixture | sketch.js:770-772 | ZCZ2: 71 generated, 5 deleted, 66 left, numbered 0 to 65 |
| Presets.Zcz2Size | sketch.js:771 | `Chip(7, 11, false, ...)` generates 71 qubits |
| Presets.Zcz2Removed | sketch.js:772 | ZCZ2's list has no repeats and lies in 0..70 |
| Presets.Zcz2IsPreset | sketch.js:770-772 | the fixture's parameters are the ones `PresetOf("ZCZ2")` selects |
| Presets.SycamoreFixture | sketch.js:773-775 | Sycamore: 59 generated, 5 deleted, 54 left, numbered 1 to 54 |
| Presets.SycamoreSize | sketch.js:774 | `Chip(7, 9, true, ...)` generates 59 qubits |
| Presets.SycamoreRemoved | sketch.js:775 | Sycamore's list has no repeats and lies in 1..59 |
| Presets.SycamoreIsPreset | sketch.js:773-775 | the fixture's parameters are the ones `PresetOf("Sycamore")` selects |

## Left out

- Drawing, hit-testing and scaling are not modelled: `draw`, `isHovered`, `distToSegment`, `scaleFunc`, `center` and `displayStats` apart from its figures. A click or double click takes the index of the element under the pointer. A drag takes a rectangle in lattice coordinates.
- Browser I/O is not modelled: `localStorage`, the DOM, `prompt`, `alert`, the clipboard and `saveToLocalStorage` calls. The prompt's answer and the drop-down's group are parameters. The alerts of `checkNamesAllInChip` are returned as a list of names.
- JSON text is not parsed. The import takes the parsed value (`PyValue`), and the export's list-mode text is related to that value by `Show`. Replacing `'` with `"`, and the `catch` around a parse error, are left out.
- The attribute branch of `importSelections` (sketch.js:685-708) is not modelled. It assigns the boolean `true` to the `selected` property. That property is a method elsewhere in the class, and the assignment shadows it, so the model's marks cannot represent the result.
- `keyPressed`, the reload after an import (`initializeStorage`), `Storage.initializeFromDom` and the `storage.preset` bookkeeping are not modelled. They are browser glue around the modelled operations.
- Chips.Chip.FromJSON: requires every saved coupler endpoint to name a saved qubit. With a dangling endpoint the source's `find` returns `undefined`, and a coupler with no endpoint object cannot be represented. Chips.AttachedEndpointsExist shows that every record a well-formed chip saves meets this requirement.
- Chips.Chip.NumSelectedQubits: states only the bound against the qubit count. Records.ResetCounts states how the count behaves under a reset.
- Chips.Chip.NumSelectedCouplers: states only the bound against the coupler count, for the same reason.
- `width`, `height`, `qubitStartIdx`, `qubitNameLength` and `useOriginAsQubit` are `const` fields. The source assigns them only in the constructor, and in `fromJSON` on a fresh chip.
- Chips.MarkQubits: which qubits the group names is passed as a ghost sequence tied to `includes` by its precondition. The loop itself calls `includes` on each name.
- Selection.CouplerExportThenImport: requires that no two couplers share a name. Naming.CouplerNamesCollide shows that two couplers can share one once ids have more digits than `qubitNameLength`; importing that name then marks both couplers, so the round trip does not hold there.
- Integers are unbounded. The ids and counts the editor handles stay far below 2^53, where JavaScript numbers stop being exact.

/**
 * The selection codec of sketch.js.
 *
 * Export: getSelectedQubitsPythonObject / getSelectedCouplersPythonObject put
 * the selected elements' names into four buckets by group and print `[]`, a
 * flat list or the nested list of all four buckets; in an attribute mode they
 * print a `{"name": attribute, ...}` object.
 *
 * Import: the list branch of importSelections, taken from the already-parsed
 * value on: a flat list is group 0, a nested list assigns each inner list's
 * index as the group, and the mode becomes Qubit if any qubit matched.
 */
module Selection {
  import opened Common
  import opened Records
  import opened Naming
  import Modes

  /** A parsed value as importSelections sees it: an array, a string, or anything else. */
  datatype PyValue = PyList(items: seq<PyValue>) | PyStr(s: string) | PyOther

  /** An element as the export sees it: its name and its marks. */
  datatype Entry = Entry(name: string, marks: Marks)

  /** What a get*PythonObject call yields: the text, `undefined` (Topology mode), or a thrown TypeError. */
  datatype ExportOutcome = Exported(text: string) | Undefined | TypeError

  function QubitEntries(qs: seq<QubitState>, nameLength: int): (r: seq<Entry>)
    ensures |r| == |qs|
    ensures forall k :: 0 <= k < |qs| ==> r[k] == Entry(QubitName(qs[k].id, nameLength), qs[k].marks)
  {
    seq(|qs|, k requires 0 <= k < |qs| => Entry(QubitName(qs[k].id, nameLength), qs[k].marks))
  }

  function CouplerEntries(cs: seq<CouplerState>, nameLength: int): (r: seq<Entry>)
    ensures |r| == |cs|
    ensures forall k :: 0 <= k < |cs| ==>
      r[k] == Entry(CouplerName(cs[k].qubitA, cs[k].qubitB, nameLength), cs[k].marks)
  {
    seq(|cs|, k requires 0 <= k < |cs| =>
      Entry(CouplerName(cs[k].qubitA, cs[k].qubitB, nameLength), cs[k].marks))
  }

  // ---------------------------------------------------------------------------
  // Export.

  /** Every selected entry's group has a bucket among selectedGroups[0..3]. */
  predicate GroupsInRange(es: seq<Entry>) {
    forall k :: 0 <= k < |es| && es[k].marks.selectGroup.Some? ==> es[k].marks.selectGroup.value < 4
  }

  /**
   * selectedGroups after the forEach: four buckets of names in element order,
   * or None when an element's group has no bucket and the push throws.
   */
  function Buckets(es: seq<Entry>): (r: Option<seq<seq<string>>>)
    ensures r.Some? <==> GroupsInRange(es)
    ensures r.Some? ==> |r.value| == 4
  {
    if es == [] then Some([[], [], [], []])
    else
      var e := es[|es| - 1];
      var prev := Buckets(es[..|es| - 1]);
      assert forall k :: 0 <= k < |es| - 1 ==> es[..|es| - 1][k] == es[k];
      match prev
      case None => None
      case Some(b) =>
        match e.marks.selectGroup
        case None => Some(b)
        case Some(g) => if g < 4 then Some(b[g := b[g] + [e.name]]) else None
  }

  /** The forEach of get*PythonObject one element further. */
  lemma BucketsStep(es: seq<Entry>, i: int, b: seq<seq<string>>)
    requires 0 <= i < |es| && Buckets(es[..i]) == Some(b)
    ensures Buckets(es[..i + 1]) ==
      match es[i].marks.selectGroup
      case None => Some(b)
      case Some(g) => if g < 4 then Some(b[g := b[g] + [es[i].name]]) else None
  {
    assert es[..i + 1][..i] == es[..i];
  }

  /** A name sits in bucket g exactly when some entry of that name is in group g. */
  lemma {:induction false} BucketMembers(es: seq<Entry>, g: nat, name: string)
    requires GroupsInRange(es) && g < 4
    ensures name in Buckets(es).value[g] <==>
      exists k :: 0 <= k < |es| && es[k].name == name && es[k].marks.selectGroup == Some(g)
  {
    if es != [] {
      var init := es[..|es| - 1];
      assert forall k :: 0 <= k < |init| ==> init[k] == es[k];
      BucketMembers(init, g, name);
      if name in Buckets(es).value[g] && name !in Buckets(init).value[g] {
        assert es[|es| - 1].name == name && es[|es| - 1].marks.selectGroup == Some(g);
      }
      if exists k :: 0 <= k < |es| && es[k].name == name && es[k].marks.selectGroup == Some(g) {
        var k :| 0 <= k < |es| && es[k].name == name && es[k].marks.selectGroup == Some(g);
        if k < |init| {
          assert init[k].name == name && init[k].marks.selectGroup == Some(g);
        }
      }
    }
  }

  /** The number of buckets holding at least one name. */
  function NonEmptyCount(b: seq<seq<string>>): (n: nat)
    ensures n <= |b|
  {
    if b == [] then 0 else (if b[0] != [] then 1 else 0) + NonEmptyCount(b[1..])
  }

  /** selectedGroups.flat(). */
  function Flatten(b: seq<seq<string>>): seq<string> {
    if b == [] then [] else b[0] + Flatten(b[1..])
  }

  /** Array.prototype.join. */
  function Join(parts: seq<string>, sep: string): string {
    if parts == [] then "" else if |parts| == 1 then parts[0] else parts[0] + sep + Join(parts[1..], sep)
  }

  function Quote(s: string): string {
    "\"" + s + "\""
  }

  /** `[${names.map(q => `"${q}"`).join(', ')}]`. */
  function ListText(names: seq<string>): string {
    "[" + Join(seq(|names|, i requires 0 <= i < |names| => Quote(names[i])), ", ") + "]"
  }

  /** The list-mode text for the four buckets. */
  function ListExport(b: seq<seq<string>>): string {
    if NonEmptyCount(b) == 0 then "[]"
    else if NonEmptyCount(b) == 1 then ListText(Flatten(b))
    else "[" + Join(seq(|b|, i requires 0 <= i < |b| => ListText(b[i])), ", ") + "]"
  }

  /** `${attribute}`: an unset attribute prints as `undefined`. */
  function AttrText(attribute: Option<string>): string {
    match attribute
    case None => "undefined"
    case Some(s) => s
  }

  /** The `"name": attribute` parts of the selected entries, in element order. */
  function AttrParts(es: seq<Entry>): seq<string> {
    if es == [] then []
    else
      (if Selected(es[0].marks) then [Quote(es[0].name) + ": " + AttrText(es[0].marks.attribute)] else [])
      + AttrParts(es[1..])
  }

  /** get*PythonObject in the given mode. */
  function Export(es: seq<Entry>, mode: Modes.Mode): (r: ExportOutcome)
    ensures r == Undefined <==> mode == Modes.Topology
    ensures r == TypeError <==> Modes.IsListMode(mode) && !GroupsInRange(es)
    ensures Modes.IsAttrMode(mode) ==> r == Exported("{" + Join(AttrParts(es), ", ") + "}")
  {
    if Modes.IsListMode(mode) then
      match Buckets(es)
      case None => TypeError
      case Some(b) => Exported(ListExport(b))
    else if Modes.IsAttrMode(mode) then Exported("{" + Join(AttrParts(es), ", ") + "}")
    else Undefined
  }

  // ---------------------------------------------------------------------------
  // The exported text as a value.

  function Strs(names: seq<string>): (r: seq<PyValue>)
    ensures |r| == |names| && forall i :: 0 <= i < |names| ==> r[i] == PyStr(names[i])
  {
    seq(|names|, i requires 0 <= i < |names| => PyStr(names[i]))
  }

  lemma {:induction false} FlattenNonEmpty(b: seq<seq<string>>)
    requires NonEmptyCount(b) >= 1
    ensures Flatten(b) != []
  {
    if b[0] == [] {
      FlattenNonEmpty(b[1..]);
    }
  }

  /** The value the exported list text denotes. */
  function ExportedValue(b: seq<seq<string>>): (r: PyValue)
    ensures r.PyList? && (r.items == [] <==> NonEmptyCount(b) == 0)
  {
    if NonEmptyCount(b) == 0 then PyList([])
    else if NonEmptyCount(b) == 1 then FlattenNonEmpty(b); PyList(Strs(Flatten(b)))
    else PyList(seq(|b|, i requires 0 <= i < |b| => PyList(Strs(b[i]))))
  }

  /** The export's notation for a value: double-quoted strings, `[a, b]` lists. */
  function Show(v: PyValue): string {
    match v
    case PyStr(s) => Quote(s)
    case PyList(items) => "[" + Join(seq(|items|, i requires 0 <= i < |items| => Show(items[i])), ", ") + "]"
    case PyOther => "null"
  }

  lemma ListTextIsShow(names: seq<string>)
    ensures ListText(names) == Show(PyList(Strs(names)))
  {
    var items := Strs(names);
    assert seq(|items|, i requires 0 <= i < |items| => Show(items[i]))
        == seq(|names|, i requires 0 <= i < |names| => Quote(names[i]));
  }

  /** The list-mode text is exactly the notation of ExportedValue: the value import receives. */
  lemma ExportIsShow(b: seq<seq<string>>)
    ensures ListExport(b) == Show(ExportedValue(b))
  {
    if NonEmptyCount(b) == 1 {
      ListTextIsShow(Flatten(b));
    } else if NonEmptyCount(b) > 1 {
      var items := seq(|b|, i requires 0 <= i < |b| => PyList(Strs(b[i])));
      forall i | 0 <= i < |b| ensures Show(items[i]) == ListText(b[i]) {
        ListTextIsShow(b[i]);
      }
      assert seq(|items|, i requires 0 <= i < |items| => Show(items[i]))
          == seq(|b|, i requires 0 <= i < |b| => ListText(b[i]));
    }
  }

  // ---------------------------------------------------------------------------
  // Import (list branch).

  /** Array.prototype.flat(): one level of nesting removed. */
  function Flat(items: seq<PyValue>): (r: seq<PyValue>)
    ensures forall v :: v in items && !v.PyList? ==> v in r
    ensures forall v, w :: v in items && v.PyList? && w in v.items ==> w in r
  {
    if items == [] then []
    else (if items[0].PyList? then items[0].items else [items[0]]) + Flat(items[1..])
  }

  /** Every qubit's getName(), in order. */
  function QubitNameList(qs: seq<QubitState>, nameLength: int): (r: seq<string>)
    ensures |r| == |qs| && forall k :: 0 <= k < |qs| ==> r[k] == QubitName(qs[k].id, nameLength)
  {
    seq(|qs|, k requires 0 <= k < |qs| => QubitName(qs[k].id, nameLength))
  }

  /** Every coupler's getName(), in order. */
  function CouplerNameList(cs: seq<CouplerState>, nameLength: int): (r: seq<string>)
    ensures |r| == |cs| && forall k :: 0 <= k < |cs| ==> r[k] == CouplerName(cs[k].qubitA, cs[k].qubitB, nameLength)
  {
    seq(|cs|, k requires 0 <= k < |cs| => CouplerName(cs[k].qubitA, cs[k].qubitB, nameLength))
  }

  /** A name the chip has: some qubit's or some coupler's getName(). */
  predicate KnownName(v: PyValue, qs: seq<QubitState>, cs: seq<CouplerState>, nameLength: int) {
    v.PyStr? && (v.s in QubitNameList(qs, nameLength) || v.s in CouplerNameList(cs, nameLength))
  }

  /** checkNamesAllInChip: the names that raise an alert, one per occurrence. */
  function Unknown(names: seq<PyValue>, qs: seq<QubitState>, cs: seq<CouplerState>, nameLength: int): seq<PyValue> {
    if names == [] then []
    else (if KnownName(names[0], qs, cs, nameLength) then [] else [names[0]]) + Unknown(names[1..], qs, cs, nameLength)
  }

  /** The alerts name exactly the inputs that are not a qubit or coupler name, and no more often than they occur. */
  lemma {:induction false} UnknownMembers(names: seq<PyValue>, qs: seq<QubitState>, cs: seq<CouplerState>, nameLength: int)
    ensures |Unknown(names, qs, cs, nameLength)| <= |names|
    ensures forall v :: v in Unknown(names, qs, cs, nameLength) <==> v in names && !KnownName(v, qs, cs, nameLength)
  {
    if names != [] {
      UnknownMembers(names[1..], qs, cs, nameLength);
      assert names == [names[0]] + names[1..];
    }
  }

  /** Unknown scans the names front to back. */
  lemma UnknownStep(names: seq<PyValue>, i: int, qs: seq<QubitState>, cs: seq<CouplerState>, nameLength: int)
    requires 0 <= i < |names|
    ensures Unknown(names[i..], qs, cs, nameLength) ==
      (if KnownName(names[i], qs, cs, nameLength) then [] else [names[i]]) + Unknown(names[i + 1..], qs, cs, nameLength)
  {
    assert names[i..][1..] == names[i + 1..];
  }

  /** s.includes(sub) on strings: sub occurs in s. */
  function Contains(s: string, sub: string): bool
    decreases |s|
  {
    if |sub| > |s| then false else s[..|sub|] == sub || Contains(s[1..], sub)
  }

  /** sub occurs in s at position i. */
  predicate OccursAt(s: string, sub: string, i: int) {
    0 <= i <= |s| - |sub| && s[i..i + |sub|] == sub
  }

  lemma {:induction false} ContainsIff(s: string, sub: string)
    ensures Contains(s, sub) <==> exists i :: OccursAt(s, sub, i)
    decreases |s|
  {
    if |sub| <= |s| {
      if s[..|sub|] == sub {
        assert OccursAt(s, sub, 0);
      } else {
        ContainsIff(s[1..], sub);
        if exists i :: OccursAt(s, sub, i) {
          var i :| OccursAt(s, sub, i);
          assert s[1..][i - 1..i - 1 + |sub|] == s[i..i + |sub|];
          assert OccursAt(s[1..], sub, i - 1);
        }
        if exists i :: OccursAt(s[1..], sub, i) {
          var i :| OccursAt(s[1..], sub, i);
          assert s[1..][i..i + |sub|] == s[i + 1..i + 1 + |sub|];
          assert OccursAt(s, sub, i + 1);
        }
      }
    }
  }

  /**
   * elements.includes(name): an array tests membership, a string tests for a
   * substring, and anything else has no includes method (None: it throws).
   */
  function Includes(elements: PyValue, name: string): (r: Option<bool>)
    ensures r.None? <==> elements.PyOther?
    ensures elements.PyList? ==> r == Some(PyStr(name) in elements.items)
  {
    match elements
    case PyList(items) => Some(PyStr(name) in items)
    case PyStr(s) => Some(Contains(s, name))
    case PyOther => None
  }

  /** `if (!Array.isArray(parsedInput[0])) parsedInput = [parsedInput]`. */
  function GroupsOf(items: seq<PyValue>): seq<PyValue>
    requires items != []
  {
    if items[0].PyList? then items else [PyList(items)]
  }

  /** The group of the first element without an includes method: where the loop throws. */
  function FirstFailure(groups: seq<PyValue>): (r: Option<nat>)
    ensures r.Some? ==> r.value < |groups| && groups[r.value].PyOther?
    ensures r.Some? ==> forall i :: 0 <= i < r.value ==> !groups[i].PyOther?
    ensures r.None? ==> forall i :: 0 <= i < |groups| ==> !groups[i].PyOther?
  {
    if groups == [] then None
    else if groups[0].PyOther? then Some(0)
    else match FirstFailure(groups[1..])
      case None => None
      case Some(f) => Some(f + 1)
  }

  /** The groups the loop gets through before it throws. */
  function Applied(groups: seq<PyValue>): seq<PyValue> {
    match FirstFailure(groups)
    case None => groups
    case Some(f) => groups[..f]
  }

  /** Every group before g has an includes method. */
  predicate PassesBefore(groups: seq<PyValue>, g: int) {
    forall i :: 0 <= i < |groups| && i < g ==> !groups[i].PyOther?
  }

  /** Getting through group g extends PassesBefore by one. */
  lemma PassesStep(groups: seq<PyValue>, g: nat)
    requires g < |groups| && PassesBefore(groups, g) && !groups[g].PyOther?
    ensures PassesBefore(groups, g + 1)
  {
  }

  /** The loop throws at group g when g is the first group without an includes method. */
  lemma AppliedUpTo(groups: seq<PyValue>, g: int)
    requires 0 <= g < |groups| && groups[g].PyOther?
    requires PassesBefore(groups, g)
    ensures FirstFailure(groups) == Some(g) && Applied(groups) == groups[..g]
  {
  }

  /** Without such a group the loop gets through all of them. */
  lemma AppliedAll(groups: seq<PyValue>)
    requires PassesBefore(groups, |groups|)
    ensures FirstFailure(groups) == None && Applied(groups) == groups
  {
  }

  /** The last group whose elements include name: the group it ends up in, since later groups overwrite. */
  function LastGroup(groups: seq<PyValue>, name: string): (r: Option<nat>)
    ensures r.Some? ==> r.value < |groups| && Includes(groups[r.value], name) == Some(true)
    ensures r.Some? ==> forall i :: r.value < i < |groups| ==> Includes(groups[i], name) != Some(true)
    ensures r.None? ==> forall i :: 0 <= i < |groups| ==> Includes(groups[i], name) != Some(true)
  {
    if groups == [] then None
    else if Includes(groups[|groups| - 1], name) == Some(true) then Some(|groups| - 1)
    else
      var r := LastGroup(groups[..|groups| - 1], name);
      assert forall i :: 0 <= i < |groups| - 1 ==> groups[..|groups| - 1][i] == groups[i];
      r
  }

  /** The marks after the import loop: the last matching group, or untouched. `disabled` is not consulted. */
  function Regroup(m: Marks, groups: seq<PyValue>, name: string): Marks {
    match LastGroup(groups, name)
    case None => m
    case Some(g) => m.(selectGroup := Some(g))
  }

  function ImportQubits(qs: seq<QubitState>, groups: seq<PyValue>, nameLength: int): (r: seq<QubitState>)
    ensures |r| == |qs|
    ensures forall k :: 0 <= k < |qs| ==>
      r[k] == qs[k].(marks := Regroup(qs[k].marks, groups, QubitName(qs[k].id, nameLength)))
  {
    seq(|qs|, k requires 0 <= k < |qs| =>
      qs[k].(marks := Regroup(qs[k].marks, groups, QubitName(qs[k].id, nameLength))))
  }

  function ImportCouplers(cs: seq<CouplerState>, groups: seq<PyValue>, nameLength: int): (r: seq<CouplerState>)
    ensures |r| == |cs|
    ensures forall k :: 0 <= k < |cs| ==>
      r[k] == cs[k].(marks := Regroup(cs[k].marks, groups, CouplerName(cs[k].qubitA, cs[k].qubitB, nameLength)))
  {
    seq(|cs|, k requires 0 <= k < |cs| =>
      cs[k].(marks := Regroup(cs[k].marks, groups, CouplerName(cs[k].qubitA, cs[k].qubitB, nameLength))))
  }

  /** qubitUpdated: some qubit matched some group. */
  function AnyQubitMatch(qs: seq<QubitState>, groups: seq<PyValue>, nameLength: int): (r: bool)
    ensures r <==> exists k :: 0 <= k < |qs| && LastGroup(groups, QubitName(qs[k].id, nameLength)).Some?
  {
    if qs == [] then false
    else
      var r := LastGroup(groups, QubitName(qs[0].id, nameLength)).Some? || AnyQubitMatch(qs[1..], groups, nameLength);
      assert forall k :: 1 <= k < |qs| ==> qs[1..][k - 1] == qs[k];
      r
  }

  /** The effect of the list branch: new records, the mode it sets (None: unchanged) and the alerted names. */
  datatype ImportResult = ImportResult(
    qubits: seq<QubitState>, couplers: seq<CouplerState>, mode: Option<Modes.Mode>, unknown: seq<PyValue>)

  /**
   * importSelections on a parsed array: report unknown names; an empty list
   * stops there; otherwise apply the groups up to the first one that throws,
   * and set the mode only when nothing threw.
   */
  function ImportList(qs: seq<QubitState>, cs: seq<CouplerState>, items: seq<PyValue>, nameLength: int): ImportResult {
    var unknown := Unknown(Flat(items), qs, cs, nameLength);
    if items == [] then ImportResult(qs, cs, None, unknown)
    else
      var groups := GroupsOf(items);
      var applied := Applied(groups);
      var failed := FirstFailure(groups).Some? && (qs != [] || cs != []);
      ImportResult(
        ImportQubits(qs, applied, nameLength), ImportCouplers(cs, applied, nameLength),
        if failed then None
        else if AnyQubitMatch(qs, applied, nameLength) then Some(Modes.Qubit) else Some(Modes.Coupler),
        unknown)
  }

  // ---------------------------------------------------------------------------
  // The import loop one group at a time.

  /** One forEach callback of group g: a matching element joins group g. */
  function ApplyGroup(m: Marks, g: nat, elements: PyValue, name: string): Marks {
    if Includes(elements, name) == Some(true) then m.(selectGroup := Some(g)) else m
  }

  /** The qubits' forEach for group g. */
  function ApplyGroupQubits(qs: seq<QubitState>, g: nat, elements: PyValue, nameLength: int): (r: seq<QubitState>)
    ensures |r| == |qs|
    ensures forall k :: 0 <= k < |qs| ==>
      r[k] == qs[k].(marks := ApplyGroup(qs[k].marks, g, elements, QubitName(qs[k].id, nameLength)))
  {
    seq(|qs|, k requires 0 <= k < |qs| =>
      qs[k].(marks := ApplyGroup(qs[k].marks, g, elements, QubitName(qs[k].id, nameLength))))
  }

  /** The qubits' forEach for group g, given which qubits the group names. */
  function MarkGroup(qs: seq<QubitState>, hits: seq<bool>, g: nat): (r: seq<QubitState>)
    requires |hits| == |qs|
    ensures |r| == |qs|
  {
    seq(|qs|, k requires 0 <= k < |qs| =>
      if hits[k] then qs[k].(marks := qs[k].marks.(selectGroup := Some(g))) else qs[k])
  }

  /** With hits computed by includes on the names, MarkGroup is that forEach. */
  lemma MarkGroupApplies(qs: seq<QubitState>, hits: seq<bool>, g: nat, elements: PyValue, nameLength: int)
    requires |hits| == |qs|
    requires forall k :: 0 <= k < |qs| ==> hits[k] == (Includes(elements, QubitName(qs[k].id, nameLength)) == Some(true))
    ensures MarkGroup(qs, hits, g) == ApplyGroupQubits(qs, g, elements, nameLength)
  {
  }

  /** The couplers' forEach for group g. */
  function ApplyGroupCouplers(cs: seq<CouplerState>, g: nat, elements: PyValue, nameLength: int): (r: seq<CouplerState>)
    ensures |r| == |cs|
    ensures forall k :: 0 <= k < |cs| ==>
      r[k] == cs[k].(marks := ApplyGroup(cs[k].marks, g, elements, CouplerName(cs[k].qubitA, cs[k].qubitB, nameLength)))
  {
    seq(|cs|, k requires 0 <= k < |cs| =>
      cs[k].(marks := ApplyGroup(cs[k].marks, g, elements, CouplerName(cs[k].qubitA, cs[k].qubitB, nameLength))))
  }

  /** One more group: it wins for the names it includes, the earlier winner stands for the rest. */
  lemma LastGroupSnoc(groups: seq<PyValue>, e: PyValue, name: string)
    ensures LastGroup(groups + [e], name) ==
      if Includes(e, name) == Some(true) then Some(|groups|) else LastGroup(groups, name)
  {
    assert (groups + [e])[..|groups|] == groups;
  }

  /** Running the qubits' loop over one more group is applying that group to the result so far. */
  lemma ImportQubitsSnoc(qs: seq<QubitState>, groups: seq<PyValue>, e: PyValue, nameLength: int)
    ensures ImportQubits(qs, groups + [e], nameLength) ==
      ApplyGroupQubits(ImportQubits(qs, groups, nameLength), |groups|, e, nameLength)
  {
    var l := ImportQubits(qs, groups + [e], nameLength);
    var r := ApplyGroupQubits(ImportQubits(qs, groups, nameLength), |groups|, e, nameLength);
    forall k | 0 <= k < |qs| ensures l[k] == r[k] {
      LastGroupSnoc(groups, e, QubitName(qs[k].id, nameLength));
    }
  }

  /** Likewise for the couplers' loop. */
  lemma ImportCouplersSnoc(cs: seq<CouplerState>, groups: seq<PyValue>, e: PyValue, nameLength: int)
    ensures ImportCouplers(cs, groups + [e], nameLength) ==
      ApplyGroupCouplers(ImportCouplers(cs, groups, nameLength), |groups|, e, nameLength)
  {
    var l := ImportCouplers(cs, groups + [e], nameLength);
    var r := ApplyGroupCouplers(ImportCouplers(cs, groups, nameLength), |groups|, e, nameLength);
    forall k | 0 <= k < |cs| ensures l[k] == r[k] {
      LastGroupSnoc(groups, e, CouplerName(cs[k].qubitA, cs[k].qubitB, nameLength));
    }
  }

  /** qubitUpdated after one more group: it was already set, or the group includes some qubit's name. */
  lemma AnyQubitMatchSnoc(qs: seq<QubitState>, groups: seq<PyValue>, e: PyValue, nameLength: int)
    ensures AnyQubitMatch(qs, groups + [e], nameLength) <==>
      AnyQubitMatch(qs, groups, nameLength) ||
      exists k :: 0 <= k < |qs| && Includes(e, QubitName(qs[k].id, nameLength)) == Some(true)
  {
    forall k | 0 <= k < |qs|
      ensures LastGroup(groups + [e], QubitName(qs[k].id, nameLength)).Some? <==>
        LastGroup(groups, QubitName(qs[k].id, nameLength)).Some? || Includes(e, QubitName(qs[k].id, nameLength)) == Some(true)
    {
      LastGroupSnoc(groups, e, QubitName(qs[k].id, nameLength));
    }
  }

  /** Group g of the import loop, applied to the records the earlier groups left. */
  lemma ImportStep(q0: seq<QubitState>, c0: seq<CouplerState>, groups: seq<PyValue>, g: int, nameLength: int)
    requires 0 <= g < |groups|
    ensures var qs := ImportQubits(q0, groups[..g], nameLength);
      ImportQubits(q0, groups[..g + 1], nameLength) == ApplyGroupQubits(qs, g, groups[g], nameLength) &&
      (AnyQubitMatch(q0, groups[..g + 1], nameLength) <==>
        AnyQubitMatch(q0, groups[..g], nameLength) ||
        exists k :: 0 <= k < |qs| && Includes(groups[g], QubitName(qs[k].id, nameLength)) == Some(true))
    ensures ImportCouplers(c0, groups[..g + 1], nameLength) ==
      ApplyGroupCouplers(ImportCouplers(c0, groups[..g], nameLength), g, groups[g], nameLength)
  {
    assert groups[..g + 1] == groups[..g] + [groups[g]];
    ImportQubitsSnoc(q0, groups[..g], groups[g], nameLength);
    ImportCouplersSnoc(c0, groups[..g], groups[g], nameLength);
    AnyQubitMatchSnoc(q0, groups[..g], groups[g], nameLength);
  }

  // ---------------------------------------------------------------------------
  // Export followed by import.

  /** The records with every selection dropped: the state a fresh session starts from. */
  function Deselect(qs: seq<QubitState>): (r: seq<QubitState>)
    ensures |r| == |qs| && forall k :: 0 <= k < |qs| ==> r[k] == qs[k].(marks := qs[k].marks.(selectGroup := None))
  {
    seq(|qs|, k requires 0 <= k < |qs| => qs[k].(marks := qs[k].marks.(selectGroup := None)))
  }

  predicate DistinctIds(qs: seq<QubitState>) {
    forall i, j :: 0 <= i < j < |qs| ==> qs[i].id != qs[j].id
  }

  /** LastGroup when exactly the groups o names include the name. */
  lemma {:induction false} LastGroupIs(groups: seq<PyValue>, name: string, o: Option<nat>)
    requires o.Some? ==> o.value < |groups|
    requires forall i :: 0 <= i < |groups| ==> (Includes(groups[i], name) == Some(true) <==> o == Some(i))
    ensures LastGroup(groups, name) == o
  {
  }

  predicate DistinctNames(es: seq<Entry>) {
    forall i, j :: 0 <= i < j < |es| ==> es[i].name != es[j].name
  }

  /** Distinct ids give distinct qubit names. */
  lemma QubitNamesDistinct(qs: seq<QubitState>, nameLength: int)
    requires DistinctIds(qs)
    ensures DistinctNames(QubitEntries(qs, nameLength))
  {
    var es := QubitEntries(qs, nameLength);
    forall i, j | 0 <= i < j < |es| ensures es[i].name != es[j].name {
      if es[i].name == es[j].name {
        QubitNameInjective(qs[i].id, qs[j].id, nameLength);
      }
    }
  }

  /** With distinct names, entry k's name is in bucket g exactly when g is its group. */
  lemma NestedMembership(es: seq<Entry>, b: seq<seq<string>>, k: int, g: nat)
    requires DistinctNames(es) && Buckets(es) == Some(b)
    requires 0 <= k < |es| && g < 4
    ensures es[k].name in b[g] <==> es[k].marks.selectGroup == Some(g)
  {
    BucketMembers(es, g, es[k].name);
    if es[k].name in b[g] {
      var j :| 0 <= j < |es| && es[j].name == es[k].name && es[j].marks.selectGroup == Some(g);
      assert j == k;
    }
  }

  /** No coupler name is in a qubit export. */
  lemma CouplerNotInQubitBucket(qs: seq<QubitState>, nameLength: int, b: seq<seq<string>>, g: nat, idA: int, idB: int)
    requires Buckets(QubitEntries(qs, nameLength)) == Some(b) && g < 4
    ensures CouplerName(idA, idB, nameLength) !in b[g]
  {
    var es := QubitEntries(qs, nameLength);
    var name := CouplerName(idA, idB, nameLength);
    BucketMembers(es, g, name);
    if name in b[g] {
      var j :| 0 <= j < |es| && es[j].name == name && es[j].marks.selectGroup == Some(g);
      QubitAndCouplerNamesDiffer(qs[j].id, idA, idB, nameLength);
    }
  }

  /** The nested export as import groups: one list of names per bucket. */
  function NestedGroups(b: seq<seq<string>>): (r: seq<PyValue>)
    ensures |r| == |b| && forall g :: 0 <= g < |b| ==> r[g] == PyList(Strs(b[g]))
  {
    seq(|b|, i requires 0 <= i < |b| => PyList(Strs(b[i])))
  }

  lemma NestedEntry(es: seq<Entry>, b: seq<seq<string>>, k: int)
    requires DistinctNames(es) && Buckets(es) == Some(b) && 0 <= k < |es|
    ensures LastGroup(NestedGroups(b), es[k].name) == es[k].marks.selectGroup
  {
    var groups := NestedGroups(b);
    forall g | 0 <= g < |groups| ensures Includes(groups[g], es[k].name) == Some(true) <==> es[k].marks.selectGroup == Some(g) {
      NestedMembership(es, b, k, g);
    }
    LastGroupIs(groups, es[k].name, es[k].marks.selectGroup);
  }

  lemma NestedCoupler(qs: seq<QubitState>, nameLength: int, b: seq<seq<string>>, c: CouplerState)
    requires Buckets(QubitEntries(qs, nameLength)) == Some(b)
    ensures LastGroup(NestedGroups(b), CouplerName(c.qubitA, c.qubitB, nameLength)) == None
  {
    var groups := NestedGroups(b);
    var name := CouplerName(c.qubitA, c.qubitB, nameLength);
    forall g | 0 <= g < |groups| ensures Includes(groups[g], name) != Some(true) {
      CouplerNotInQubitBucket(qs, nameLength, b, g, c.qubitA, c.qubitB);
    }
    LastGroupIs(groups, name, None);
  }

  lemma NestedQubits(qs: seq<QubitState>, nameLength: int, b: seq<seq<string>>)
    requires DistinctIds(qs) && Buckets(QubitEntries(qs, nameLength)) == Some(b)
    ensures ImportQubits(Deselect(qs), NestedGroups(b), nameLength) == qs
  {
    var r := ImportQubits(Deselect(qs), NestedGroups(b), nameLength);
    var es := QubitEntries(qs, nameLength);
    QubitNamesDistinct(qs, nameLength);
    forall k | 0 <= k < |qs| ensures r[k] == qs[k] {
      NestedEntry(es, b, k);
    }
  }

  lemma NestedCouplers(qs: seq<QubitState>, cs: seq<CouplerState>, nameLength: int, b: seq<seq<string>>)
    requires Buckets(QubitEntries(qs, nameLength)) == Some(b)
    ensures ImportCouplers(cs, NestedGroups(b), nameLength) == cs
  {
    var r := ImportCouplers(cs, NestedGroups(b), nameLength);
    forall k | 0 <= k < |cs| ensures r[k] == cs[k] {
      NestedCoupler(qs, nameLength, b, cs[k]);
    }
  }

  lemma NestedMatches(qs: seq<QubitState>, nameLength: int, b: seq<seq<string>>)
    requires DistinctIds(qs) && Buckets(QubitEntries(qs, nameLength)) == Some(b)
    requires NonEmptyCount(b) >= 1
    ensures AnyQubitMatch(Deselect(qs), NestedGroups(b), nameLength)
  {
    var es := QubitEntries(qs, nameLength);
    QubitNamesDistinct(qs, nameLength);
    NonEmptyWitness(b);
    var g :| 0 <= g < |b| && b[g] != [];
    BucketMembers(es, g, b[g][0]);
    var k :| 0 <= k < |es| && es[k].name == b[g][0] && es[k].marks.selectGroup == Some(g);
    NestedEntry(es, b, k);
    assert Deselect(qs)[k].id == qs[k].id;
  }

  /**
   * Two or more groups: importing the qubit export into the same chip with its
   * selection dropped gives back every qubit's group, leaves the couplers
   * alone and selects Qubit mode.
   */
  lemma NestedRoundTrip(qs: seq<QubitState>, cs: seq<CouplerState>, nameLength: int, b: seq<seq<string>>)
    requires DistinctIds(qs) && Buckets(QubitEntries(qs, nameLength)) == Some(b)
    requires NonEmptyCount(b) >= 2
    ensures var r := ImportList(Deselect(qs), cs, ExportedValue(b).items, nameLength);
      r.qubits == qs && r.couplers == cs && r.mode == Some(Modes.Qubit)
  {
    var groups := NestedGroups(b);
    assert ExportedValue(b).items == groups;
    assert GroupsOf(groups) == groups;
    assert Applied(groups) == groups;
    NestedQubits(qs, nameLength, b);
    NestedCouplers(qs, cs, nameLength, b);
    NestedMatches(qs, nameLength, b);
  }

  lemma {:induction false} NonEmptyWitness(b: seq<seq<string>>)
    requires NonEmptyCount(b) >= 1
    ensures exists g :: 0 <= g < |b| && b[g] != []
  {
    if b[0] == [] {
      NonEmptyWitness(b[1..]);
      var g :| 0 <= g < |b[1..]| && b[1..][g] != [];
      assert b[g + 1] != [];
    }
  }

  lemma {:induction false} FlattenMembers(b: seq<seq<string>>, x: string)
    ensures x in Flatten(b) <==> exists g :: 0 <= g < |b| && x in b[g]
  {
    if b != [] {
      FlattenMembers(b[1..], x);
      if exists g :: 0 <= g < |b[1..]| && x in b[1..][g] {
        var g :| 0 <= g < |b[1..]| && x in b[1..][g];
        assert x in b[g + 1];
      }
      if exists g :: 0 <= g < |b| && x in b[g] {
        var g :| 0 <= g < |b| && x in b[g];
        if g > 0 {
          assert x in b[1..][g - 1];
        }
      }
    }
  }

  /** The import groups a non-empty export turns into. */
  lemma ExportedGroups(b: seq<seq<string>>)
    requires NonEmptyCount(b) >= 1
    ensures var items := ExportedValue(b).items;
      items != [] && FirstFailure(GroupsOf(items)) == None &&
      GroupsOf(items) == if NonEmptyCount(b) == 1 then [PyList(Strs(Flatten(b)))] else NestedGroups(b)
  {
    if NonEmptyCount(b) >= 2 {
      assert ExportedValue(b).items == NestedGroups(b);
    }
  }

  /** A flat export holds the names of all selected entries, whatever their group. */
  lemma FlatMembership(es: seq<Entry>, b: seq<seq<string>>, k: int)
    requires Buckets(es) == Some(b) && 0 <= k < |es|
    ensures es[k].name in Flatten(b) <==> exists j :: 0 <= j < |es| && es[j].name == es[k].name && Selected(es[j].marks)
  {
    var name := es[k].name;
    FlattenMembers(b, name);
    if name in Flatten(b) {
      var g :| 0 <= g < |b| && name in b[g];
      BucketMembers(es, g, name);
    }
    if exists j :: 0 <= j < |es| && es[j].name == name && Selected(es[j].marks) {
      var j :| 0 <= j < |es| && es[j].name == name && Selected(es[j].marks);
      var g := es[j].marks.selectGroup.value;
      BucketMembers(es, g, name);
      assert name in b[g];
    }
  }

  /** The group a qubit has after its export is imported into the deselected chip. */
  function AfterImport(m: Marks, flat: bool): Option<nat> {
    if flat && Selected(m) then Some(0) else m.selectGroup
  }

  /** With a single group exported flat, entry k comes back in group 0 exactly when it was selected. */
  lemma FlatEntry(es: seq<Entry>, b: seq<seq<string>>, k: int)
    requires DistinctNames(es) && Buckets(es) == Some(b) && 0 <= k < |es|
    ensures LastGroup([PyList(Strs(Flatten(b)))], es[k].name) == if Selected(es[k].marks) then Some(0) else None
  {
    FlatMembership(es, b, k);
    if exists j :: 0 <= j < |es| && es[j].name == es[k].name && Selected(es[j].marks) {
      var j :| 0 <= j < |es| && es[j].name == es[k].name && Selected(es[j].marks);
      assert j == k;
    }
    LastGroupIs([PyList(Strs(Flatten(b)))], es[k].name, if Selected(es[k].marks) then Some(0) else None);
  }

  lemma ReimportedQubit(qs: seq<QubitState>, nameLength: int, b: seq<seq<string>>, k: int)
    requires DistinctIds(qs) && Buckets(QubitEntries(qs, nameLength)) == Some(b) && 0 <= k < |qs|
    requires NonEmptyCount(b) >= 1
    ensures var groups := GroupsOf(ExportedValue(b).items);
      LastGroup(groups, QubitName(qs[k].id, nameLength)) == AfterImport(qs[k].marks, NonEmptyCount(b) == 1)
  {
    var es := QubitEntries(qs, nameLength);
    QubitNamesDistinct(qs, nameLength);
    ExportedGroups(b);
    if NonEmptyCount(b) == 1 {
      FlatEntry(es, b, k);
    } else {
      NestedEntry(es, b, k);
    }
  }

  /** No qubit's name is among the couplers' export, nor a coupler's among the qubits'. */
  lemma NamesNotExported(es: seq<Entry>, b: seq<seq<string>>, name: string)
    requires Buckets(es) == Some(b) && NonEmptyCount(b) >= 1
    requires forall k :: 0 <= k < |es| ==> es[k].name != name
    ensures LastGroup(GroupsOf(ExportedValue(b).items), name) == None
  {
    ExportedGroups(b);
    var groups := GroupsOf(ExportedValue(b).items);
    forall g | 0 <= g < |b| ensures name !in b[g] {
      BucketMembers(es, g, name);
    }
    FlattenMembers(b, name);
    LastGroupIs(groups, name, None);
  }

  /** Nothing exported: nothing was selected, so the deselected chip is the chip. */
  lemma EmptyExport(qs: seq<QubitState>, nameLength: int, b: seq<seq<string>>)
    requires Buckets(QubitEntries(qs, nameLength)) == Some(b) && NonEmptyCount(b) == 0
    ensures forall k :: 0 <= k < |qs| ==> !Selected(qs[k].marks)
  {
    var es := QubitEntries(qs, nameLength);
    forall k | 0 <= k < |qs| ensures !Selected(qs[k].marks) {
      if Selected(qs[k].marks) {
        var g := qs[k].marks.selectGroup.value;
        assert es[k].marks.selectGroup == Some(g);
        BucketMembers(es, g, es[k].name);
        NoneEmpty(b, g);
      }
    }
  }

  lemma ReimportedQubits(qs: seq<QubitState>, nameLength: int, b: seq<seq<string>>)
    requires DistinctIds(qs) && Buckets(QubitEntries(qs, nameLength)) == Some(b) && NonEmptyCount(b) >= 1
    ensures var r := ImportQubits(Deselect(qs), Applied(GroupsOf(ExportedValue(b).items)), nameLength);
      forall k :: 0 <= k < |qs| ==>
        r[k] == qs[k].(marks := qs[k].marks.(selectGroup := AfterImport(qs[k].marks, NonEmptyCount(b) == 1)))
  {
    ExportedGroups(b);
    var groups := GroupsOf(ExportedValue(b).items);
    assert Applied(groups) == groups;
    var dq := Deselect(qs);
    var r := ImportQubits(dq, groups, nameLength);
    forall k | 0 <= k < |qs|
      ensures r[k] == qs[k].(marks := qs[k].marks.(selectGroup := AfterImport(qs[k].marks, NonEmptyCount(b) == 1)))
    {
      ReimportedQubit(qs, nameLength, b, k);
      assert dq[k].id == qs[k].id;
      assert r[k] == dq[k].(marks := Regroup(dq[k].marks, groups, QubitName(qs[k].id, nameLength)));
    }
  }

  lemma UntouchedCouplers(qs: seq<QubitState>, cs: seq<CouplerState>, nameLength: int, b: seq<seq<string>>)
    requires Buckets(QubitEntries(qs, nameLength)) == Some(b) && NonEmptyCount(b) >= 1
    ensures ImportCouplers(cs, Applied(GroupsOf(ExportedValue(b).items)), nameLength) == cs
  {
    ExportedGroups(b);
    var groups := GroupsOf(ExportedValue(b).items);
    assert Applied(groups) == groups;
    var es := QubitEntries(qs, nameLength);
    var r := ImportCouplers(cs, groups, nameLength);
    forall k | 0 <= k < |cs| ensures r[k] == cs[k] {
      forall j | 0 <= j < |es| ensures es[j].name != CouplerName(cs[k].qubitA, cs[k].qubitB, nameLength) {
        QubitAndCouplerNamesDiffer(qs[j].id, cs[k].qubitA, cs[k].qubitB, nameLength);
      }
      NamesNotExported(es, b, CouplerName(cs[k].qubitA, cs[k].qubitB, nameLength));
    }
  }

  lemma ReimportMatches(qs: seq<QubitState>, nameLength: int, b: seq<seq<string>>)
    requires DistinctIds(qs) && Buckets(QubitEntries(qs, nameLength)) == Some(b) && NonEmptyCount(b) >= 1
    ensures AnyQubitMatch(Deselect(qs), Applied(GroupsOf(ExportedValue(b).items)), nameLength)
  {
    ExportedGroups(b);
    var groups := GroupsOf(ExportedValue(b).items);
    assert Applied(groups) == groups;
    var es := QubitEntries(qs, nameLength);
    NonEmptyWitness(b);
    var g :| 0 <= g < |b| && b[g] != [];
    BucketMembers(es, g, b[g][0]);
    var k :| 0 <= k < |es| && es[k].name == b[g][0] && es[k].marks.selectGroup == Some(g);
    ReimportedQubit(qs, nameLength, b, k);
    assert Deselect(qs)[k].id == qs[k].id;
  }

  /**
   * The qubit export imported into the same chip with its selection dropped:
   * nothing is selected when nothing was; a single group comes back as group 0
   * whatever its index was; two or more groups come back exactly. The
   * couplers are untouched and the mode becomes Qubit when anything was
   * exported.
   */
  lemma ExportThenImport(qs: seq<QubitState>, cs: seq<CouplerState>, nameLength: int, b: seq<seq<string>>)
    requires DistinctIds(qs) && Buckets(QubitEntries(qs, nameLength)) == Some(b)
    ensures var r := ImportList(Deselect(qs), cs, ExportedValue(b).items, nameLength);
      && r.couplers == cs
      && |r.qubits| == |qs|
      && (NonEmptyCount(b) == 0 ==> r.qubits == qs && r.mode == None)
      && (NonEmptyCount(b) >= 1 ==> r.mode == Some(Modes.Qubit))
      && (NonEmptyCount(b) >= 2 ==> r.qubits == qs)
      && (forall k :: 0 <= k < |qs| ==>
            r.qubits[k] == qs[k].(marks := qs[k].marks.(selectGroup := AfterImport(qs[k].marks, NonEmptyCount(b) == 1))))
  {
    if NonEmptyCount(b) == 0 {
      EmptyExport(qs, nameLength, b);
      assert Deselect(qs) == qs;
    } else {
      ReimportedQubits(qs, nameLength, b);
      UntouchedCouplers(qs, cs, nameLength, b);
      ReimportMatches(qs, nameLength, b);
      if NonEmptyCount(b) >= 2 {
        NestedQubits(qs, nameLength, b);
        ExportedGroups(b);
      }
    }
  }

  lemma {:induction false} NoneEmpty(b: seq<seq<string>>, g: int)
    requires NonEmptyCount(b) == 0 && 0 <= g < |b|
    ensures b[g] == []
  {
    if g > 0 {
      NoneEmpty(b[1..], g - 1);
    }
  }

  /** A coupler export re-imported selects Coupler mode and leaves every qubit alone. */
  lemma CouplerExportSelectsCouplerMode(qs: seq<QubitState>, cs: seq<CouplerState>, chipCouplers: seq<CouplerState>,
                                        nameLength: int, b: seq<seq<string>>)
    requires Buckets(CouplerEntries(cs, nameLength)) == Some(b) && NonEmptyCount(b) >= 1
    ensures var r := ImportList(qs, chipCouplers, ExportedValue(b).items, nameLength);
      r.qubits == qs && r.mode == Some(Modes.Coupler)
  {
    var es := CouplerEntries(cs, nameLength);
    ExportedGroups(b);
    var groups := GroupsOf(ExportedValue(b).items);
    assert Applied(groups) == groups;
    var r := ImportList(qs, chipCouplers, ExportedValue(b).items, nameLength);
    forall k | 0 <= k < |qs| ensures LastGroup(groups, QubitName(qs[k].id, nameLength)) == None {
      forall j | 0 <= j < |es| ensures es[j].name != QubitName(qs[k].id, nameLength) {
        QubitAndCouplerNamesDiffer(qs[k].id, cs[j].qubitA, cs[j].qubitB, nameLength);
      }
      NamesNotExported(es, b, QubitName(qs[k].id, nameLength));
    }
    forall k | 0 <= k < |qs| ensures r.qubits[k] == qs[k] {
    }
  }

  /** The couplers with every selection dropped. */
  function DeselectCouplers(cs: seq<CouplerState>): (r: seq<CouplerState>)
    ensures |r| == |cs| && forall k :: 0 <= k < |cs| ==> r[k] == cs[k].(marks := cs[k].marks.(selectGroup := None))
  {
    seq(|cs|, k requires 0 <= k < |cs| => cs[k].(marks := cs[k].marks.(selectGroup := None)))
  }

  /** The group coupler k comes back in, when the coupler names are distinct. */
  lemma ReimportedCoupler(cs: seq<CouplerState>, nameLength: int, b: seq<seq<string>>, k: int)
    requires DistinctNames(CouplerEntries(cs, nameLength)) && Buckets(CouplerEntries(cs, nameLength)) == Some(b)
    requires 0 <= k < |cs| && NonEmptyCount(b) >= 1
    ensures var groups := GroupsOf(ExportedValue(b).items);
      LastGroup(groups, CouplerName(cs[k].qubitA, cs[k].qubitB, nameLength)) == AfterImport(cs[k].marks, NonEmptyCount(b) == 1)
  {
    var es := CouplerEntries(cs, nameLength);
    ExportedGroups(b);
    if NonEmptyCount(b) == 1 {
      FlatEntry(es, b, k);
    } else {
      NestedEntry(es, b, k);
    }
  }

  lemma ReimportedCouplers(cs: seq<CouplerState>, nameLength: int, b: seq<seq<string>>)
    requires DistinctNames(CouplerEntries(cs, nameLength)) && Buckets(CouplerEntries(cs, nameLength)) == Some(b)
    requires NonEmptyCount(b) >= 1
    ensures var r := ImportCouplers(DeselectCouplers(cs), Applied(GroupsOf(ExportedValue(b).items)), nameLength);
      forall k :: 0 <= k < |cs| ==>
        r[k] == cs[k].(marks := cs[k].marks.(selectGroup := AfterImport(cs[k].marks, NonEmptyCount(b) == 1)))
  {
    ExportedGroups(b);
    var groups := GroupsOf(ExportedValue(b).items);
    assert Applied(groups) == groups;
    var dc := DeselectCouplers(cs);
    var r := ImportCouplers(dc, groups, nameLength);
    forall k | 0 <= k < |cs|
      ensures r[k] == cs[k].(marks := cs[k].marks.(selectGroup := AfterImport(cs[k].marks, NonEmptyCount(b) == 1)))
    {
      ReimportedCoupler(cs, nameLength, b, k);
      assert dc[k].qubitA == cs[k].qubitA && dc[k].qubitB == cs[k].qubitB;
      assert r[k] == dc[k].(marks := Regroup(dc[k].marks, groups, CouplerName(cs[k].qubitA, cs[k].qubitB, nameLength)));
    }
  }

  /** Nothing exported: no coupler was selected. */
  lemma CouplerEmptyExport(cs: seq<CouplerState>, nameLength: int, b: seq<seq<string>>)
    requires Buckets(CouplerEntries(cs, nameLength)) == Some(b) && NonEmptyCount(b) == 0
    ensures forall k :: 0 <= k < |cs| ==> !Selected(cs[k].marks)
  {
    var es := CouplerEntries(cs, nameLength);
    forall k | 0 <= k < |cs| ensures !Selected(cs[k].marks) {
      if Selected(cs[k].marks) {
        var g := cs[k].marks.selectGroup.value;
        assert es[k].marks.selectGroup == Some(g);
        BucketMembers(es, g, es[k].name);
        NoneEmpty(b, g);
      }
    }
  }

  /**
   * The coupler export imported into the same chip with the couplers'
   * selection dropped, when no two couplers share a name: the same outcome as
   * for qubits, with the qubits untouched and Coupler mode selected.
   */
  lemma CouplerExportThenImport(qs: seq<QubitState>, cs: seq<CouplerState>, nameLength: int, b: seq<seq<string>>)
    requires DistinctNames(CouplerEntries(cs, nameLength)) && Buckets(CouplerEntries(cs, nameLength)) == Some(b)
    ensures var r := ImportList(qs, DeselectCouplers(cs), ExportedValue(b).items, nameLength);
      && r.qubits == qs
      && |r.couplers| == |cs|
      && (NonEmptyCount(b) == 0 ==> r.couplers == cs && r.mode == None)
      && (NonEmptyCount(b) >= 1 ==> r.mode == Some(Modes.Coupler))
      && (NonEmptyCount(b) >= 2 ==> r.couplers == cs)
      && (forall k :: 0 <= k < |cs| ==>
            r.couplers[k] == cs[k].(marks := cs[k].marks.(selectGroup := AfterImport(cs[k].marks, NonEmptyCount(b) == 1))))
  {
    var r := ImportList(qs, DeselectCouplers(cs), ExportedValue(b).items, nameLength);
    if NonEmptyCount(b) == 0 {
      CouplerEmptyExport(cs, nameLength, b);
      assert DeselectCouplers(cs) == cs;
    } else {
      ReimportedCouplers(cs, nameLength, b);
      CouplerExportSelectsCouplerMode(qs, cs, DeselectCouplers(cs), nameLength, b);
      if NonEmptyCount(b) >= 2 {
        assert forall k :: 0 <= k < |cs| ==> r.couplers[k] == cs[k];
      }
    }
  }

  /** A lone group 1 is exported flat and comes back as group 0. */
  lemma LoneGroupBecomesZero()
    ensures var qs := [QubitState(5, 0, 0, Marks(false, Some(1), None))];
      var b := Buckets(QubitEntries(qs, 2)).value;
      ImportList(Deselect(qs), [], ExportedValue(b).items, 2).qubits[0].marks.selectGroup == Some(0)
  {
    var qs := [QubitState(5, 0, 0, Marks(false, Some(1), None))];
    var es := QubitEntries(qs, 2);
    assert GroupsInRange(es);
    assert es[..0] == [];
    assert Buckets(es[..0]) == Some([[], [], [], []]);
    var b := Buckets(es).value;
    assert b == [[], [], [], []][1 := [] + [es[0].name]];
    assert b[0] == [] && b[1] != [] && b[2] == [] && b[3] == [];
    var b3 := b[1..][1..][1..];
    assert |b3| == 1 && b3[0] == [] && b3[1..] == [];
    assert NonEmptyCount(b3) == 0;
    assert NonEmptyCount(b[1..][1..]) == 0;
    assert NonEmptyCount(b) == 1;
    ExportThenImport(qs, [], 2, b);
  }
}

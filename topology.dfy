/**
 * The mutable chip model of sketch.js: Qubit, Coupler and Chip objects.
 * Each object's toJSON record (module Records) is its abstract value; every
 * method is specified by the record it leaves behind, in terms of the record
 * before and of the pure functions in Records, Lattice, Renumbering and
 * Selection.
 */
module Topology {
  import opened Common
  import opened Records
  import opened Naming
  import Modes
  import Lattice
  import Renumbering

  class Qubit {
    var id: int
    const x: int
    const y: int
    var disabled: bool
    var selectGroup: Option<nat>
    var attribute: Option<string>

    constructor (id: int, x: int, y: int)
      ensures ToJSON() == QubitState(id, x, y, Fresh)
    {
      this.id, this.x, this.y := id, x, y;
      disabled, selectGroup, attribute := false, None, None;
    }

    /** `new Qubit()` followed by fromJSON(json). */
    constructor FromJSON(json: QubitState)
      ensures ToJSON() == json
    {
      id, x, y := json.id, json.x, json.y;
      disabled, selectGroup, attribute := json.marks.disabled, json.marks.selectGroup, json.marks.attribute;
    }

    function Flags(): Marks
      reads this
    {
      Marks(disabled, selectGroup, attribute)
    }

    function ToJSON(): (r: QubitState)
      reads this
      ensures r.id == id && r.x == x && r.y == y && r.marks == Flags()
    {
      QubitState(id, x, y, Flags())
    }

    function GetName(nameLength: int): string
      reads this
    {
      QubitName(id, nameLength)
    }

    method HandleSelect(doNotReset: bool, group: nat)
      modifies this
      ensures ToJSON() == old(ToJSON()).(marks := Select(old(Flags()), doNotReset, group))
    {
      if disabled {
        return;
      }
      if !doNotReset && selectGroup.Some? {
        selectGroup := None;
      } else {
        selectGroup := Some(group);
      }
    }

    method Reset()
      modifies this
      ensures ToJSON() == old(ToJSON()).(marks := Clear(old(Flags())))
    {
      selectGroup := None;
      attribute := None;
    }
  }

  class Coupler {
    const qubitA: Qubit
    const qubitB: Qubit
    var disabled: bool
    var selectGroup: Option<nat>
    var attribute: Option<string>

    constructor (qubitA: Qubit, qubitB: Qubit)
      ensures this.qubitA == qubitA && this.qubitB == qubitB && Flags() == Fresh
    {
      this.qubitA, this.qubitB := qubitA, qubitB;
      disabled, selectGroup, attribute := false, None, None;
    }

    /** `new Coupler()` followed by fromJSON(json, qubits), given the two qubits `find` returned. */
    constructor FromJSON(json: CouplerState, qubitA: Qubit, qubitB: Qubit)
      ensures this.qubitA == qubitA && this.qubitB == qubitB && Flags() == json.marks
    {
      this.qubitA, this.qubitB := qubitA, qubitB;
      disabled, selectGroup, attribute := json.marks.disabled, json.marks.selectGroup, json.marks.attribute;
    }

    function Flags(): Marks
      reads this
    {
      Marks(disabled, selectGroup, attribute)
    }

    function ToJSON(): (r: CouplerState)
      reads this, qubitA, qubitB
      ensures r.qubitA == qubitA.id && r.qubitB == qubitB.id && r.marks == Flags()
    {
      CouplerState(qubitA.id, qubitB.id, Flags())
    }

    function GetName(nameLength: int): string
      reads qubitA, qubitB
    {
      CouplerName(qubitA.id, qubitB.id, nameLength)
    }

    method HandleSelect(doNotReset: bool, group: nat)
      modifies this
      ensures Flags() == Select(old(Flags()), doNotReset, group)
    {
      if disabled {
        return;
      }
      if !doNotReset && selectGroup.Some? {
        selectGroup := None;
      } else {
        selectGroup := Some(group);
      }
    }

    method Reset()
      modifies this
      ensures Flags() == Clear(old(Flags()))
    {
      selectGroup := None;
      attribute := None;
    }
  }

  /** The records of a sequence of qubits. */
  function QubitStates(qs: seq<Qubit>): (r: seq<QubitState>)
    reads qs
    ensures |r| == |qs| && forall k :: 0 <= k < |qs| ==> r[k] == qs[k].ToJSON()
  {
    seq(|qs|, k requires 0 <= k < |qs| reads qs => qs[k].ToJSON())
  }

  /** The qubit objects the couplers point at. */
  function Endpoints(cs: seq<Coupler>): set<Qubit> {
    (set c | c in cs :: c.qubitA) + (set c | c in cs :: c.qubitB)
  }

  /** The records of a sequence of couplers. */
  function CouplerStates(cs: seq<Coupler>): (r: seq<CouplerState>)
    reads cs, Endpoints(cs)
    ensures |r| == |cs| && forall k :: 0 <= k < |cs| ==> r[k] == cs[k].ToJSON()
  {
    seq(|cs|, k requires 0 <= k < |cs| reads cs, Endpoints(cs) => cs[k].ToJSON())
  }

  predicate DistinctQubits(qs: seq<Qubit>) {
    forall i, j :: 0 <= i < j < |qs| ==> qs[i] != qs[j]
  }

  predicate DistinctCouplers(cs: seq<Coupler>) {
    forall i, j :: 0 <= i < j < |cs| ==> cs[i] != cs[j]
  }

  /** No coupler dangles: both endpoint objects are qubits of the chip. */
  predicate Attached(qs: seq<Qubit>, cs: seq<Coupler>) {
    forall c :: c in cs ==> c.qubitA in qs && c.qubitB in qs
  }

  /** qubitDict maps the coordinates of every qubit of qs, and only those, to a qubit standing there. */
  predicate DictMatches(dict: map<(int, int), Qubit>, qs: seq<Qubit>) {
    && (forall p :: p in dict ==> dict[p] in qs && dict[p].x == p.0 && dict[p].y == p.1)
    && (forall k :: 0 <= k < |qs| ==> (qs[k].x, qs[k].y) in dict)
  }

  /** No two qubits share coordinates. */
  predicate UniqueSites(qs: seq<Qubit>) {
    forall i, j {:trigger SitesDiffer(qs[i], qs[j])} :: 0 <= i < j < |qs| ==> SitesDiffer(qs[i], qs[j])
  }

  predicate SitesDiffer(a: Qubit, b: Qubit) {
    (a.x, a.y) != (b.x, b.y)
  }

  /** With unique sites, qubitDict finds what the specification's dictionary finds. */
  lemma DictAgrees(qs: seq<Qubit>, dict: map<(int, int), Qubit>, p: (int, int))
    requires DictMatches(dict, qs) && UniqueSites(qs)
    ensures var spec := Lattice.CoordDict(QubitStates(qs));
      (p in dict <==> p in spec) && (p in dict ==> spec[p] == dict[p].ToJSON())
  {
    var states := QubitStates(qs);
    var spec := Lattice.CoordDict(states);
    if p in dict {
      var k :| 0 <= k < |qs| && qs[k] == dict[p];
      forall j | k < j < |states| ensures (states[j].x, states[j].y) != (states[k].x, states[k].y) {
        assert SitesDiffer(qs[k], qs[j]);
      }
      Lattice.CoordDictHit(states, k);
    }
    if p in spec {
      var k := Lattice.CoordDictEntry(states, p);
    }
  }

  lemma AppendQubitState(qs: seq<Qubit>, q: Qubit)
    ensures QubitStates(qs + [q]) == QubitStates(qs) + [q.ToJSON()]
  {
    var l := QubitStates(qs + [q]);
    var r := QubitStates(qs) + [q.ToJSON()];
    assert |l| == |r|;
    forall k | 0 <= k < |l| ensures l[k] == r[k] {
      if k < |qs| {
        assert (qs + [q])[k] == qs[k];
      }
    }
  }

  lemma AppendCoupler(cs: seq<Coupler>, c: Coupler)
    ensures CouplerStates(cs + [c]) == CouplerStates(cs) + [c.ToJSON()]
  {
    var l := CouplerStates(cs + [c]);
    var r := CouplerStates(cs) + [c.ToJSON()];
    assert |l| == |r|;
    forall k | 0 <= k < |l| ensures l[k] == r[k] {
      if k < |cs| {
        assert (cs + [c])[k] == cs[k];
      }
    }
  }

  /** The inner loop of Chip.initialize: push row y's qubits and record them in qubitDict. */
  method PlaceRow(width: int, y: int, useOriginAsQubit: bool, qubitStartIdx: int,
                  qubits0: seq<Qubit>, qubitDict0: map<(int, int), Qubit>)
    returns (qubits: seq<Qubit>, qubitDict: map<(int, int), Qubit>)
    requires DistinctQubits(qubits0) && DictMatches(qubitDict0, qubits0)
    ensures DistinctQubits(qubits) && DictMatches(qubitDict, qubits)
    ensures forall q :: q in qubits ==> q in qubits0 || fresh(q)
    ensures QubitStates(qubits) ==
      old(QubitStates(qubits0)) + Lattice.Row(width, y, useOriginAsQubit, qubitStartIdx + |qubits0|)
  {
    qubits, qubitDict := qubits0, qubitDict0;
    ghost var before := QubitStates(qubits0);
    ghost var row := Lattice.Row(width, y, useOriginAsQubit, qubitStartIdx + |qubits0|);
    var rowOffset := if (y % 2 == 0) == useOriginAsQubit then 0 else 1;
    var qid := qubitStartIdx + |qubits0|;
    var x := 0;
    while x < width - rowOffset
      invariant 0 <= x && (x <= width - rowOffset || x == 0) && x <= |row|
      invariant QubitStates(qubits) == before + row[..x]
      invariant qid == qubitStartIdx + |qubits0| + x
      invariant DistinctQubits(qubits) && DictMatches(qubitDict, qubits)
      invariant forall q :: q in qubits ==> q in qubits0 || fresh(q)
    {
      var posX := x * 2 + rowOffset;
      Lattice.RowStep(width, y, useOriginAsQubit, qubitStartIdx + |qubits0|, x);
      assert Lattice.Site(qubitStartIdx + |qubits0| + x, x, y, useOriginAsQubit) == QubitState(qid, posX, y, Fresh);
      ghost var prefix := QubitStates(qubits);
      qubits, qubitDict := PushQubit(qubits, qubitDict, qid, posX, y);
      assert QubitStates(qubits) == (before + row[..x]) + [QubitState(qid, posX, y, Fresh)];
      assert row[..x + 1] == row[..x] + [QubitState(qid, posX, y, Fresh)];
      ConcatAssoc(before, row[..x], [QubitState(qid, posX, y, Fresh)]);
      qid := qid + 1;
      x := x + 1;
    }
    assert row[..x] == row;
  }

  /** One pass of that loop: `new Qubit(qid, posX, y)`, pushed and recorded under its position. */
  method PushQubit(qubits: seq<Qubit>, qubitDict: map<(int, int), Qubit>, qid: int, posX: int, y: int)
    returns (qubits': seq<Qubit>, qubitDict': map<(int, int), Qubit>)
    requires DistinctQubits(qubits) && DictMatches(qubitDict, qubits)
    ensures DistinctQubits(qubits') && DictMatches(qubitDict', qubits')
    ensures forall q :: q in qubits' ==> q in qubits || fresh(q)
    ensures QubitStates(qubits') == old(QubitStates(qubits)) + [QubitState(qid, posX, y, Fresh)]
  {
    var qubit := new Qubit(qid, posX, y);
    AppendQubitState(qubits, qubit);
    qubits' := qubits + [qubit];
    qubitDict' := qubitDict[(posX, y) := qubit];
  }

  /** The outer loop of Chip.initialize over the rows. */
  method PlaceQubits(width: int, height: int, useOriginAsQubit: bool, qubitStartIdx: int)
    returns (qubits: seq<Qubit>, qubitDict: map<(int, int), Qubit>)
    ensures DistinctQubits(qubits) && DictMatches(qubitDict, qubits)
    ensures forall q :: q in qubits ==> fresh(q)
    ensures QubitStates(qubits) == Lattice.LatticeQubits(width, height, useOriginAsQubit, qubitStartIdx)
  {
    qubits, qubitDict := [], map[];
    var y := 0;
    while y < height
      invariant 0 <= y && (y <= height || y == 0)
      invariant QubitStates(qubits) == Lattice.Qubits(width, y, useOriginAsQubit, qubitStartIdx)
      invariant DistinctQubits(qubits) && DictMatches(qubitDict, qubits)
      invariant forall q :: q in qubits ==> fresh(q)
    {
      Lattice.NextRow(width, y, useOriginAsQubit, qubitStartIdx);
      ghost var row := Lattice.Row(width, y, useOriginAsQubit, qubitStartIdx + |qubits|);
      assert Lattice.Qubits(width, y + 1, useOriginAsQubit, qubitStartIdx) == QubitStates(qubits) + row;
      qubits, qubitDict := PlaceRow(width, y, useOriginAsQubit, qubitStartIdx, qubits, qubitDict);
      y := y + 1;
    }
  }

  /** The coupler record a probe of qubitDict at p adds for qubit a: none when nothing stands at p. */
  function Probe(qubitDict: map<(int, int), Qubit>, a: Qubit, p: (int, int)): (r: seq<CouplerState>)
    reads a, qubitDict.Values
    ensures |r| <= 1 && (|r| == 1 <==> p in qubitDict)
    ensures p in qubitDict ==> r[0].qubitA == a.id && r[0].qubitB == qubitDict[p].id && r[0].marks == Fresh
  {
    if p in qubitDict then [CouplerState(a.id, qubitDict[p].id, Fresh)] else []
  }

  /** The two probes of qubit i are the couplers the specification's Links creates for it. */
  lemma ProbesAreLinks(qubits: seq<Qubit>, qubitDict: map<(int, int), Qubit>, i: int, states: seq<QubitState>)
    requires DictMatches(qubitDict, qubits) && UniqueSites(qubits) && 0 <= i < |qubits|
    requires QubitStates(qubits) == states
    ensures Lattice.Links(states[i], Lattice.CoordDict(states))
      == Probe(qubitDict, qubits[i], (qubits[i].x - 1, qubits[i].y + 1))
       + Probe(qubitDict, qubits[i], (qubits[i].x + 1, qubits[i].y + 1))
  {
    var q := qubits[i];
    DictAgrees(qubits, qubitDict, (q.x - 1, q.y + 1));
    DictAgrees(qubits, qubitDict, (q.x + 1, q.y + 1));
  }

  /** One probe of the coupler loop: couple `a` to the qubit at p, if qubitDict has one. */
  method Link(qubits: seq<Qubit>, qubitDict: map<(int, int), Qubit>, a: Qubit, p: (int, int), couplers0: seq<Coupler>,
              ghost probe: seq<CouplerState>)
    returns (couplers: seq<Coupler>)
    requires a in qubits && DictMatches(qubitDict, qubits)
    requires probe == Probe(qubitDict, a, p)
    requires DistinctCouplers(couplers0) && Attached(qubits, couplers0)
    ensures DistinctCouplers(couplers) && Attached(qubits, couplers)
    ensures forall c :: c in couplers ==> c in couplers0 || fresh(c)
    ensures CouplerStates(couplers) == old(CouplerStates(couplers0)) + probe
  {
    couplers := couplers0;
    if p in qubitDict {
      var coupler := new Coupler(a, qubitDict[p]);
      AppendCoupler(couplers, coupler);
      couplers := couplers + [coupler];
    }
  }

  /** One iteration of the coupler loop: the couplers of qubit i. */
  method LinkQubit(qubits: seq<Qubit>, qubitDict: map<(int, int), Qubit>, i: int, couplers0: seq<Coupler>,
                   ghost states: seq<QubitState>)
    returns (couplers: seq<Coupler>)
    requires DictMatches(qubitDict, qubits) && UniqueSites(qubits) && 0 <= i < |qubits|
    requires QubitStates(qubits) == states
    requires DistinctCouplers(couplers0) && Attached(qubits, couplers0)
    ensures DistinctCouplers(couplers) && Attached(qubits, couplers)
    ensures forall c :: c in couplers ==> c in couplers0 || fresh(c)
    ensures CouplerStates(couplers) ==
      old(CouplerStates(couplers0)) + Lattice.Links(states[i], Lattice.CoordDict(states))
  {
    var qubit := qubits[i];
    var left := (qubit.x - 1, qubit.y + 1);
    var right := (qubit.x + 1, qubit.y + 1);
    ghost var probeLeft := Probe(qubitDict, qubit, left);
    ghost var probeRight := Probe(qubitDict, qubit, right);
    ProbesAreLinks(qubits, qubitDict, i, states);
    assert Lattice.Links(states[i], Lattice.CoordDict(states)) == probeLeft + probeRight;
    ghost var before := CouplerStates(couplers0);
    couplers := Link(qubits, qubitDict, qubit, left, couplers0, probeLeft);
    couplers := Link(qubits, qubitDict, qubit, right, couplers, probeRight);
    ConcatAssoc(before, probeLeft, probeRight);
  }

  /** The coupler loop of Chip.initialize: probe (x-1, y+1) and (x+1, y+1) for every qubit. */
  method AddCouplers(qubits: seq<Qubit>, qubitDict: map<(int, int), Qubit>) returns (couplers: seq<Coupler>)
    requires DictMatches(qubitDict, qubits) && UniqueSites(qubits)
    ensures DistinctCouplers(couplers) && Attached(qubits, couplers)
    ensures forall c :: c in couplers ==> fresh(c)
    ensures CouplerStates(couplers) == Lattice.LatticeCouplers(QubitStates(qubits))
  {
    ghost var states := QubitStates(qubits);
    ghost var dict := Lattice.CoordDict(states);
    couplers := [];
    var i := 0;
    while i < |qubits|
      invariant 0 <= i <= |qubits|
      invariant QubitStates(qubits) == states
      invariant DistinctCouplers(couplers) && Attached(qubits, couplers)
      invariant forall c :: c in couplers ==> fresh(c)
      invariant CouplerStates(couplers) == Lattice.CouplersOf(states[..i], dict)
    {
      Lattice.CouplersOfStep(states, dict, i);
      couplers := LinkQubit(qubits, qubitDict, i, couplers, states);
      i := i + 1;
    }
    assert states[..i] == states;
  }

  /** Chip.initialize: the brick-wall lattice as fresh objects. */
  method Initialize(width: int, height: int, useOriginAsQubit: bool, qubitStartIdx: int)
    returns (qubits: seq<Qubit>, couplers: seq<Coupler>)
    ensures DistinctQubits(qubits) && DistinctCouplers(couplers) && Attached(qubits, couplers)
    ensures forall q :: q in qubits ==> fresh(q)
    ensures forall c :: c in couplers ==> fresh(c)
    ensures QubitStates(qubits) == Lattice.LatticeQubits(width, height, useOriginAsQubit, qubitStartIdx)
    ensures CouplerStates(couplers) == Lattice.LatticeCouplers(QubitStates(qubits))
  {
    var qubitDict;
    qubits, qubitDict := PlaceQubits(width, height, useOriginAsQubit, qubitStartIdx);
    Lattice.GeneratedQubits(width, if height > 0 then height else 0, useOriginAsQubit, qubitStartIdx);
    forall i, j | 0 <= i < j < |qubits| ensures SitesDiffer(qubits[i], qubits[j]) {
      assert Lattice.Before(QubitStates(qubits)[i], QubitStates(qubits)[j]);
    }
    couplers := AddCouplers(qubits, qubitDict);
  }
}

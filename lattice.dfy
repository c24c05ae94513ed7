/**
 * Chip.initialize as a function of its inputs: the brick-wall lattice.
 * Row y holds `width` qubits, or `width - 1` when the row is offset; a row is
 * offset unless (y is even) == useOriginAsQubit. Qubit c of row y sits at
 * x = 2*c + offset, and ids run on from qubitStartIdx row by row. A coupler is
 * created from each qubit to each existing qubit at (x-1, y+1) and (x+1, y+1),
 * found through a dictionary keyed by coordinates.
 */
module Lattice {
  import opened Common
  import opened Records

  /** rowOffset: 0 when (y is even) == useOriginAsQubit, else 1. */
  function RowOffset(y: int, useOriginAsQubit: bool): nat {
    if (y % 2 == 0) == useOriginAsQubit then 0 else 1
  }

  /** The number of iterations of the inner loop: width - (rowOffset ? 1 : 0), or none. */
  function RowLength(width: int, y: int, useOriginAsQubit: bool): nat {
    var n := width - RowOffset(y, useOriginAsQubit);
    if n > 0 then n else 0
  }

  /** How many qubits the first `rows` rows hold. */
  function Size(width: int, rows: nat, useOriginAsQubit: bool): nat {
    if rows == 0 then 0 else Size(width, rows - 1, useOriginAsQubit) + RowLength(width, rows - 1, useOriginAsQubit)
  }

  /** The qubit in column c of row y, whose id is `id`. */
  function Site(id: int, c: int, y: int, useOriginAsQubit: bool): QubitState {
    QubitState(id, 2 * c + RowOffset(y, useOriginAsQubit), y, Fresh)
  }

  /** Row y, numbered from firstId. */
  function Row(width: int, y: int, useOriginAsQubit: bool, firstId: int): (r: seq<QubitState>)
    ensures |r| == RowLength(width, y, useOriginAsQubit)
    ensures forall c :: 0 <= c < |r| ==> r[c] == Site(firstId + c, c, y, useOriginAsQubit)
  {
    seq(RowLength(width, y, useOriginAsQubit), c => Site(firstId + c, c, y, useOriginAsQubit))
  }

  /** The qubits of the first `rows` rows, in the order the loops push them. */
  function Qubits(width: int, rows: nat, useOriginAsQubit: bool, start: int): seq<QubitState> {
    if rows == 0 then []
    else
      var prev := Qubits(width, rows - 1, useOriginAsQubit, start);
      prev + Row(width, rows - 1, useOriginAsQubit, start + |prev|)
  }

  /** The qubits of `initialize` for a chip of the given height. */
  function LatticeQubits(width: int, height: int, useOriginAsQubit: bool, start: int): seq<QubitState> {
    Qubits(width, if height > 0 then height else 0, useOriginAsQubit, start)
  }

  /** qubitDict after pushing qs in order: coordinates to the last qubit stored there. */
  function CoordDict(qs: seq<QubitState>): map<(int, int), QubitState> {
    if qs == [] then map[]
    else
      var last := qs[|qs| - 1];
      CoordDict(qs[..|qs| - 1])[(last.x, last.y) := last]
  }

  /** The couplers created for one qubit: its (x-1, y+1) neighbour first, then its (x+1, y+1) one. */
  function Links(q: QubitState, dict: map<(int, int), QubitState>): seq<CouplerState> {
    var left := (q.x - 1, q.y + 1);
    var right := (q.x + 1, q.y + 1);
    (if left in dict then [CouplerState(q.id, dict[left].id, Fresh)] else [])
    + (if right in dict then [CouplerState(q.id, dict[right].id, Fresh)] else [])
  }

  /** The couplers created while the outer loop visits ps. */
  function CouplersOf(ps: seq<QubitState>, dict: map<(int, int), QubitState>): seq<CouplerState> {
    if ps == [] then [] else CouplersOf(ps[..|ps| - 1], dict) + Links(ps[|ps| - 1], dict)
  }

  /** The couplers of `initialize`. */
  function LatticeCouplers(qs: seq<QubitState>): seq<CouplerState> {
    CouplersOf(qs, CoordDict(qs))
  }

  lemma CouplersOfStep(qs: seq<QubitState>, dict: map<(int, int), QubitState>, i: int)
    requires 0 <= i < |qs|
    ensures CouplersOf(qs[..i + 1], dict) == CouplersOf(qs[..i], dict) + Links(qs[i], dict)
  {
    assert qs[..i + 1][..i] == qs[..i];
  }

  // ---------------------------------------------------------------------------
  // The qubits.

  lemma {:induction false} QubitsSize(width: int, rows: nat, useOriginAsQubit: bool, start: int)
    ensures |Qubits(width, rows, useOriginAsQubit, start)| == Size(width, rows, useOriginAsQubit)
  {
    if rows > 0 {
      QubitsSize(width, rows - 1, useOriginAsQubit, start);
    }
  }

  /** The qubits of one more row: the earlier rows, then the new row numbered on from them. */
  lemma NextRow(width: int, rows: nat, useOriginAsQubit: bool, start: int)
    ensures Qubits(width, rows + 1, useOriginAsQubit, start) ==
      Qubits(width, rows, useOriginAsQubit, start)
      + Row(width, rows, useOriginAsQubit, start + |Qubits(width, rows, useOriginAsQubit, start)|)
  {
  }

  /** Row y up to column c + 1: the columns before it, then the site at c. */
  lemma RowStep(width: int, y: int, useOriginAsQubit: bool, firstId: int, c: nat)
    requires c < RowLength(width, y, useOriginAsQubit)
    ensures Row(width, y, useOriginAsQubit, firstId)[..c + 1] ==
      Row(width, y, useOriginAsQubit, firstId)[..c] + [Site(firstId + c, c, y, useOriginAsQubit)]
  {
  }

  /** Every pair of rows holds 2 * width - 1 qubits: one full row and one offset row. */
  lemma {:induction false} SizeOfRowPairs(width: int, pairs: nat, useOriginAsQubit: bool)
    requires width >= 1
    ensures Size(width, 2 * pairs, useOriginAsQubit) == pairs * (2 * width - 1)
  {
    if pairs > 0 {
      var y := 2 * pairs - 2;
      var k := 2 * width - 1;
      SizeOfRowPairs(width, pairs - 1, useOriginAsQubit);
      assert Size(width, y, useOriginAsQubit) == (pairs - 1) * k;
      assert RowLength(width, y, useOriginAsQubit) + RowLength(width, y + 1, useOriginAsQubit) == k;
      assert (pairs - 1) * k + k == pairs * k;
    }
  }

  /** A lattice of 2 * pairs rows, or of one row more, holds this many qubits. */
  lemma LatticeSizeOfRowPairs(width: int, height: int, pairs: nat, useOriginAsQubit: bool, start: int)
    requires width >= 1 && (height == 2 * pairs || height == 2 * pairs + 1)
    ensures |LatticeQubits(width, height, useOriginAsQubit, start)|
      == pairs * (2 * width - 1) + (if height == 2 * pairs then 0 else RowLength(width, 2 * pairs, useOriginAsQubit))
  {
    QubitsSize(width, height, useOriginAsQubit, start);
    SizeOfRowPairs(width, pairs, useOriginAsQubit);
  }

  lemma {:induction false} SizeMonotone(width: int, r1: nat, r2: nat, useOriginAsQubit: bool)
    requires r1 <= r2
    ensures Size(width, r1, useOriginAsQubit) <= Size(width, r2, useOriginAsQubit)
    decreases r2
  {
    if r1 < r2 {
      SizeMonotone(width, r1, r2 - 1, useOriginAsQubit);
    }
  }

  /** Row y occupies the indices Size(y) .. Size(y+1), column by column, with ids start + index. */
  lemma {:induction false} QubitAt(width: int, rows: nat, useOriginAsQubit: bool, start: int, y: nat, c: nat)
    requires y < rows && c < RowLength(width, y, useOriginAsQubit)
    ensures Size(width, y, useOriginAsQubit) + c < |Qubits(width, rows, useOriginAsQubit, start)|
    ensures Qubits(width, rows, useOriginAsQubit, start)[Size(width, y, useOriginAsQubit) + c]
      == Site(start + Size(width, y, useOriginAsQubit) + c, c, y, useOriginAsQubit)
    decreases rows
  {
    if y < rows - 1 {
      QubitAt(width, rows - 1, useOriginAsQubit, start, y, c);
      EarlierRowAt(width, rows, useOriginAsQubit, start, Size(width, y, useOriginAsQubit) + c);
    } else {
      LastRowAt(width, y, useOriginAsQubit, start, c);
    }
  }

  /** Adding a row leaves the qubits of the earlier rows where they were. */
  lemma EarlierRowAt(width: int, rows: nat, useOriginAsQubit: bool, start: int, k: nat)
    requires 0 < rows && k < |Qubits(width, rows - 1, useOriginAsQubit, start)|
    ensures k < |Qubits(width, rows, useOriginAsQubit, start)|
    ensures Qubits(width, rows, useOriginAsQubit, start)[k] == Qubits(width, rows - 1, useOriginAsQubit, start)[k]
  {
  }

  /** Column c of the last row sits at index Size(y) + c. */
  lemma LastRowAt(width: int, y: nat, useOriginAsQubit: bool, start: int, c: nat)
    requires c < RowLength(width, y, useOriginAsQubit)
    ensures Size(width, y, useOriginAsQubit) + c < |Qubits(width, y + 1, useOriginAsQubit, start)|
    ensures Qubits(width, y + 1, useOriginAsQubit, start)[Size(width, y, useOriginAsQubit) + c]
      == Site(start + Size(width, y, useOriginAsQubit) + c, c, y, useOriginAsQubit)
  {
    var prev := Qubits(width, y, useOriginAsQubit, start);
    var row := Row(width, y, useOriginAsQubit, start + |prev|);
    NextRow(width, y, useOriginAsQubit, start);
    QubitsSize(width, y, useOriginAsQubit, start);
    assert (prev + row)[|prev| + c] == row[c];
  }

  /** Every generated qubit is the site of some row y and column c. */
  lemma {:induction false} QubitIsSite(width: int, rows: nat, useOriginAsQubit: bool, start: int, k: nat)
    returns (y: nat, c: nat)
    requires k < |Qubits(width, rows, useOriginAsQubit, start)|
    ensures y < rows && c < RowLength(width, y, useOriginAsQubit)
    ensures k == Size(width, y, useOriginAsQubit) + c
    decreases rows
  {
    QubitsSize(width, rows, useOriginAsQubit, start);
    QubitsSize(width, rows - 1, useOriginAsQubit, start);
    if k < Size(width, rows - 1, useOriginAsQubit) {
      y, c := QubitIsSite(width, rows - 1, useOriginAsQubit, start, k);
    } else {
      y, c := rows - 1, k - Size(width, rows - 1, useOriginAsQubit);
    }
  }

  /** The generated qubit at index k is the site of its row and column, with id start + k. */
  lemma SiteOf(width: int, rows: nat, useOriginAsQubit: bool, start: int, k: nat)
    returns (y: nat, c: nat)
    requires k < |Qubits(width, rows, useOriginAsQubit, start)|
    ensures y < rows && c < RowLength(width, y, useOriginAsQubit)
    ensures k == Size(width, y, useOriginAsQubit) + c
    ensures Qubits(width, rows, useOriginAsQubit, start)[k] == Site(start + k, c, y, useOriginAsQubit)
  {
    y, c := QubitIsSite(width, rows, useOriginAsQubit, start, k);
    QubitAt(width, rows, useOriginAsQubit, start, y, c);
  }

  /** Row-major order: earlier row first, and within a row smaller x first. */
  predicate Before(p: QubitState, q: QubitState) {
    p.y < q.y || (p.y == q.y && p.x < q.x)
  }

  /** The facts about a generated qubit sequence that the coupler proofs use. */
  predicate LatticeLike(qs: seq<QubitState>, start: int) {
    && (forall k :: 0 <= k < |qs| ==> qs[k].id == start + k)
    && (forall i, j :: 0 <= i < j < |qs| ==> Before(qs[i], qs[j]))
  }

  /** Ids run start, start+1, ... and the qubits come out in row-major order. */
  lemma GeneratedQubits(width: int, rows: nat, useOriginAsQubit: bool, start: int)
    ensures var qs := Qubits(width, rows, useOriginAsQubit, start);
      && LatticeLike(qs, start)
      && (forall k :: 0 <= k < |qs| ==> qs[k].marks == Fresh && 0 <= qs[k].y < rows)
  {
    var qs := Qubits(width, rows, useOriginAsQubit, start);
    forall k | 0 <= k < |qs|
      ensures qs[k].id == start + k && qs[k].marks == Fresh && 0 <= qs[k].y < rows
    {
      var y, c := SiteOf(width, rows, useOriginAsQubit, start, k);
    }
    forall i, j | 0 <= i < j < |qs| ensures Before(qs[i], qs[j]) {
      var y1, c1 := SiteOf(width, rows, useOriginAsQubit, start, i);
      var y2, c2 := SiteOf(width, rows, useOriginAsQubit, start, j);
      if y2 < y1 {
        SizeMonotone(width, y2 + 1, y1, useOriginAsQubit);
      } else if y1 < y2 {
        SizeMonotone(width, y1 + 1, y2, useOriginAsQubit);
      }
    }
  }

  // ---------------------------------------------------------------------------
  // The coordinate dictionary.

  lemma PrefixLatticeLike(qs: seq<QubitState>, start: int, n: nat)
    requires LatticeLike(qs, start) && n <= |qs|
    ensures LatticeLike(qs[..n], start)
  {
  }

  /** Whatever the dictionary holds at p is a qubit of qs standing at p. */
  lemma {:induction false} CoordDictEntry(qs: seq<QubitState>, p: (int, int)) returns (k: nat)
    requires p in CoordDict(qs)
    ensures k < |qs| && qs[k] == CoordDict(qs)[p] && (qs[k].x, qs[k].y) == p
    decreases |qs|
  {
    var last := qs[|qs| - 1];
    if p == (last.x, last.y) {
      k := |qs| - 1;
    } else {
      k := CoordDictEntry(qs[..|qs| - 1], p);
    }
  }

  /** A qubit that no later qubit shares coordinates with is what the dictionary finds there. */
  lemma {:induction false} CoordDictHit(qs: seq<QubitState>, k: nat)
    requires k < |qs|
    requires forall j :: k < j < |qs| ==> (qs[j].x, qs[j].y) != (qs[k].x, qs[k].y)
    ensures (qs[k].x, qs[k].y) in CoordDict(qs) && CoordDict(qs)[(qs[k].x, qs[k].y)] == qs[k]
    decreases |qs|
  {
    if k < |qs| - 1 {
      var prefix := qs[..|qs| - 1];
      assert prefix[k] == qs[k];
      forall j | k < j < |prefix| ensures (prefix[j].x, prefix[j].y) != (prefix[k].x, prefix[k].y) {
        assert prefix[j] == qs[j];
      }
      CoordDictHit(prefix, k);
    }
  }

  /** In a generated lattice the dictionary finds every qubit at its own coordinates. */
  lemma LatticeDictHit(qs: seq<QubitState>, start: int, k: nat)
    requires LatticeLike(qs, start) && k < |qs|
    ensures (qs[k].x, qs[k].y) in CoordDict(qs) && CoordDict(qs)[(qs[k].x, qs[k].y)] == qs[k]
  {
    forall j | k < j < |qs| ensures (qs[j].x, qs[j].y) != (qs[k].x, qs[k].y) {
      assert Before(qs[k], qs[j]);
    }
    CoordDictHit(qs, k);
  }

  // ---------------------------------------------------------------------------
  // The couplers.

  /** q sits one row below p and one column to either side: the two probes of `initialize`. */
  predicate Diagonal(p: QubitState, q: QubitState) {
    q.y == p.y + 1 && (q.x == p.x - 1 || q.x == p.x + 1)
  }

  /** The qubit found by a probe comes later in a row-major sequence. */
  lemma ProbeIsLater(qs: seq<QubitState>, start: int, i: nat, j: nat)
    requires LatticeLike(qs, start) && i < |qs| && j < |qs|
    requires qs[j].y == qs[i].y + 1
    ensures i < j
  {
  }

  /** Each coupler made while visiting the first n qubits joins qubit i < n to a diagonal neighbour j > i. */
  lemma {:induction false} CouplerEndsPrefix(qs: seq<QubitState>, start: int, n: nat, m: nat) returns (i: nat, j: nat)
    requires LatticeLike(qs, start) && n <= |qs|
    requires m < |CouplersOf(qs[..n], CoordDict(qs))|
    ensures i < n && i < j < |qs| && Diagonal(qs[i], qs[j])
    ensures CouplersOf(qs[..n], CoordDict(qs))[m] == CouplerState(qs[i].id, qs[j].id, Fresh)
    decreases n
  {
    var dict := CoordDict(qs);
    assert qs[..n][..n - 1] == qs[..n - 1];
    var prev := CouplersOf(qs[..n - 1], dict);
    var q := qs[n - 1];
    var links := Links(q, dict);
    assert CouplersOf(qs[..n], dict) == prev + links;
    if m < |prev| {
      i, j := CouplerEndsPrefix(qs, start, n - 1, m);
    } else {
      i := n - 1;
      var left := (q.x - 1, q.y + 1);
      var right := (q.x + 1, q.y + 1);
      var p := if left in dict && m == |prev| then left else right;
      assert p in dict;
      j := CoordDictEntry(qs, p);
      ProbeIsLater(qs, start, i, j);
    }
  }

  /** Every generated coupler joins a qubit to a diagonal-forward neighbour; never a self-loop. */
  lemma CouplerEnds(qs: seq<QubitState>, start: int, m: nat) returns (i: nat, j: nat)
    requires LatticeLike(qs, start)
    requires m < |LatticeCouplers(qs)|
    ensures i < j < |qs| && Diagonal(qs[i], qs[j])
    ensures LatticeCouplers(qs)[m] == CouplerState(qs[i].id, qs[j].id, Fresh)
  {
    assert qs[..|qs|] == qs;
    i, j := CouplerEndsPrefix(qs, start, |qs|, m);
  }

  /** Conversely every pair of diagonal neighbours gets a coupler. */
  lemma {:induction false} LinksIncluded(ps: seq<QubitState>, dict: map<(int, int), QubitState>, i: nat)
    requires i < |ps|
    ensures forall c :: c in Links(ps[i], dict) ==> c in CouplersOf(ps, dict)
    decreases |ps|
  {
    if i < |ps| - 1 {
      assert ps[..|ps| - 1][i] == ps[i];
      LinksIncluded(ps[..|ps| - 1], dict, i);
    }
  }

  lemma NeighboursCoupled(qs: seq<QubitState>, start: int, i: nat, j: nat)
    requires LatticeLike(qs, start) && i < |qs| && j < |qs|
    requires Diagonal(qs[i], qs[j])
    ensures CouplerState(qs[i].id, qs[j].id, Fresh) in LatticeCouplers(qs)
  {
    LatticeDictHit(qs, start, j);
    LinksIncluded(qs, CoordDict(qs), i);
  }

  /** Couplers in strictly increasing (qubitA, qubitB) order. */
  predicate PairLess(c: CouplerState, d: CouplerState) {
    c.qubitA < d.qubitA || (c.qubitA == d.qubitA && c.qubitB < d.qubitB)
  }

  predicate SortedPairs(cs: seq<CouplerState>) {
    forall a, b :: 0 <= a < b < |cs| ==> PairLess(cs[a], cs[b])
  }

  lemma LinksSorted(qs: seq<QubitState>, start: int, n: nat)
    requires LatticeLike(qs, start) && n < |qs|
    ensures SortedPairs(Links(qs[n], CoordDict(qs)))
  {
    var dict := CoordDict(qs);
    var q := qs[n];
    var left := (q.x - 1, q.y + 1);
    var right := (q.x + 1, q.y + 1);
    if left in dict && right in dict {
      var jl := CoordDictEntry(qs, left);
      var jr := CoordDictEntry(qs, right);
    }
  }

  lemma {:induction false} CouplersSortedPrefix(qs: seq<QubitState>, start: int, n: nat)
    requires LatticeLike(qs, start) && n <= |qs|
    ensures SortedPairs(CouplersOf(qs[..n], CoordDict(qs)))
    decreases n
  {
    if n > 0 {
      var dict := CoordDict(qs);
      assert qs[..n][..n - 1] == qs[..n - 1];
      var prev := CouplersOf(qs[..n - 1], dict);
      var links := Links(qs[n - 1], dict);
      var cs := prev + links;
      assert CouplersOf(qs[..n], dict) == cs;
      CouplersSortedPrefix(qs, start, n - 1);
      LinksSorted(qs, start, n - 1);
      forall a, b | 0 <= a < b < |cs| ensures PairLess(cs[a], cs[b]) {
        if a < |prev| && b >= |prev| {
          var i, j := CouplerEndsPrefix(qs, start, n - 1, a);
          assert cs[a] == prev[a];
          assert cs[a].qubitA == start + i;
          assert cs[b] == links[b - |prev|];
          assert cs[b].qubitA == qs[n - 1].id == start + (n - 1);
        } else if a >= |prev| {
          assert cs[a] == links[a - |prev|] && cs[b] == links[b - |prev|];
        } else {
          assert cs[a] == prev[a] && cs[b] == prev[b];
        }
      }
    }
  }

  /** No qubit pair is coupled twice, in either orientation. */
  lemma CouplersDistinct(qs: seq<QubitState>, start: int)
    requires LatticeLike(qs, start)
    ensures var cs := LatticeCouplers(qs);
      forall a, b :: 0 <= a < b < |cs| ==>
        && !(cs[a].qubitA == cs[b].qubitA && cs[a].qubitB == cs[b].qubitB)
        && !(cs[a].qubitA == cs[b].qubitB && cs[a].qubitB == cs[b].qubitA)
  {
    var cs := LatticeCouplers(qs);
    assert qs[..|qs|] == qs;
    CouplersSortedPrefix(qs, start, |qs|);
    forall a, b | 0 <= a < b < |cs|
      ensures !(cs[a].qubitA == cs[b].qubitA && cs[a].qubitB == cs[b].qubitB)
      ensures !(cs[a].qubitA == cs[b].qubitB && cs[a].qubitB == cs[b].qubitA)
    {
      assert PairLess(cs[a], cs[b]);
      var i1, j1 := CouplerEnds(qs, start, a);
      var i2, j2 := CouplerEnds(qs, start, b);
    }
  }
}

/**
 * Chip.deleteQubit and Chip.deleteQubits on values: drop the qubits whose id
 * is listed, drop every coupler touching one of them, then lower each
 * surviving id by the number of listed ids below it. A coupler refers to its
 * endpoint qubit objects, so renumbering a qubit renumbers the coupler's
 * endpoint too; on records that is the same shift applied to both endpoint ids.
 */
module Renumbering {
  import opened Records

  /** qids.filter(id => id < v).length: entries below v, duplicates included. */
  function CountBelow(qids: seq<int>, v: int): (n: nat)
    ensures n <= |qids|
  {
    if qids == [] then 0 else (if qids[0] < v then 1 else 0) + CountBelow(qids[1..], v)
  }

  /** How many entries of qids equal v. */
  function Occurrences(qids: seq<int>, v: int): (n: nat)
    ensures n == 0 <==> v !in qids
  {
    if qids == [] then 0 else (if qids[0] == v then 1 else 0) + Occurrences(qids[1..], v)
  }

  predicate NoDuplicates(qids: seq<int>) {
    forall i, j :: 0 <= i < j < |qids| ==> qids[i] != qids[j]
  }

  /** The new id of a surviving qubit whose id was `id`. */
  function NewId(id: int, qids: seq<int>): int {
    id - CountBelow(qids, id)
  }

  /** this.qubits.filter(q => !qids.includes(q.id)). */
  function KeepQubits(qs: seq<QubitState>, qids: seq<int>): (r: seq<QubitState>)
    ensures |r| <= |qs|
    ensures forall q :: q in r <==> q in qs && q.id !in qids
  {
    if qs == [] then []
    else (if qs[0].id in qids then [] else [qs[0]]) + KeepQubits(qs[1..], qids)
  }

  /** this.couplers.filter(c => !qids.includes(c.qubitA.id) && !qids.includes(c.qubitB.id)). */
  function KeepCouplers(cs: seq<CouplerState>, qids: seq<int>): (r: seq<CouplerState>)
    ensures |r| <= |cs|
    ensures forall c :: c in r <==> c in cs && c.qubitA !in qids && c.qubitB !in qids
  {
    if cs == [] then []
    else (if cs[0].qubitA in qids || cs[0].qubitB in qids then [] else [cs[0]]) + KeepCouplers(cs[1..], qids)
  }

  /** The indices from i on whose qubits the filter keeps, in increasing order. */
  function KeptQubitIndices(qs: seq<QubitState>, qids: seq<int>, i: nat): (r: seq<nat>)
    requires i <= |qs|
    ensures forall k :: k in r <==> i <= k < |qs| && qs[k].id !in qids
    ensures forall j :: 0 <= j < |r| ==> i <= r[j] < |qs|
    ensures forall j, j' :: 0 <= j < j' < |r| ==> r[j] < r[j']
    decreases |qs| - i
  {
    if i == |qs| then []
    else
      var rest := KeptQubitIndices(qs, qids, i + 1);
      if qs[i].id in qids then rest
      else
        assert forall j :: 0 <= j < |rest| ==> i < rest[j] by {
          forall j | 0 <= j < |rest| ensures i < rest[j] {
            assert rest[j] in rest;
          }
        }
        [i] + rest
  }

  /** The indices from i on whose couplers the filter keeps, in increasing order. */
  function KeptCouplerIndices(cs: seq<CouplerState>, qids: seq<int>, i: nat): (r: seq<nat>)
    requires i <= |cs|
    ensures forall k :: k in r <==> i <= k < |cs| && cs[k].qubitA !in qids && cs[k].qubitB !in qids
    ensures forall j :: 0 <= j < |r| ==> i <= r[j] < |cs|
    ensures forall j, j' :: 0 <= j < j' < |r| ==> r[j] < r[j']
    decreases |cs| - i
  {
    if i == |cs| then []
    else
      var rest := KeptCouplerIndices(cs, qids, i + 1);
      if cs[i].qubitA in qids || cs[i].qubitB in qids then rest
      else
        assert forall j :: 0 <= j < |rest| ==> i < rest[j] by {
          forall j | 0 <= j < |rest| ensures i < rest[j] {
            assert rest[j] in rest;
          }
        }
        [i] + rest
  }

  /** The forEach pass of deleteQubits over the surviving qubits. */
  function ShiftQubits(qs: seq<QubitState>, qids: seq<int>): (r: seq<QubitState>)
    ensures |r| == |qs|
    ensures forall k :: 0 <= k < |qs| ==> r[k] == qs[k].(id := NewId(qs[k].id, qids))
  {
    seq(|qs|, k requires 0 <= k < |qs| => qs[k].(id := NewId(qs[k].id, qids)))
  }

  /** The same pass as seen through the couplers, whose endpoints are the shifted qubits. */
  function ShiftCouplers(cs: seq<CouplerState>, qids: seq<int>): (r: seq<CouplerState>)
    ensures |r| == |cs|
    ensures forall k :: 0 <= k < |cs| ==>
      r[k] == cs[k].(qubitA := NewId(cs[k].qubitA, qids), qubitB := NewId(cs[k].qubitB, qids))
  {
    seq(|cs|, k requires 0 <= k < |cs| =>
      cs[k].(qubitA := NewId(cs[k].qubitA, qids), qubitB := NewId(cs[k].qubitB, qids)))
  }

  /** Qubits after deleteQubits(qids). */
  function DeleteQubits(qs: seq<QubitState>, qids: seq<int>): seq<QubitState> {
    ShiftQubits(KeepQubits(qs, qids), qids)
  }

  /** Couplers after deleteQubits(qids). */
  function DeleteCouplers(cs: seq<CouplerState>, qids: seq<int>): seq<CouplerState> {
    ShiftCouplers(KeepCouplers(cs, qids), qids)
  }

  // ---------------------------------------------------------------------------
  // deleteQubit(qid): the single-id form, written separately in the source.

  function KeepQubitsExcept(qs: seq<QubitState>, qid: int): (r: seq<QubitState>)
  {
    if qs == [] then []
    else (if qs[0].id == qid then [] else [qs[0]]) + KeepQubitsExcept(qs[1..], qid)
  }

  function KeepCouplersExcept(cs: seq<CouplerState>, qid: int): (r: seq<CouplerState>)
  {
    if cs == [] then []
    else (if cs[0].qubitA == qid || cs[0].qubitB == qid then [] else [cs[0]]) + KeepCouplersExcept(cs[1..], qid)
  }

  /** `if (q.id > qid) q.id -= 1`. */
  function LowerAbove(id: int, qid: int): int {
    if id > qid then id - 1 else id
  }

  /** Qubits after deleteQubit(qid). */
  function DeleteQubit(qs: seq<QubitState>, qid: int): seq<QubitState> {
    var kept := KeepQubitsExcept(qs, qid);
    seq(|kept|, k requires 0 <= k < |kept| => kept[k].(id := LowerAbove(kept[k].id, qid)))
  }

  /** Couplers after deleteQubit(qid). */
  function DeleteCoupler(cs: seq<CouplerState>, qid: int): seq<CouplerState> {
    var kept := KeepCouplersExcept(cs, qid);
    seq(|kept|, k requires 0 <= k < |kept| =>
      kept[k].(qubitA := LowerAbove(kept[k].qubitA, qid), qubitB := LowerAbove(kept[k].qubitB, qid)))
  }

  // ---------------------------------------------------------------------------
  // Properties.

  lemma {:induction false} CountBelowStep(qids: seq<int>, v: int)
    ensures CountBelow(qids, v + 1) == CountBelow(qids, v) + Occurrences(qids, v)
  {
    if qids != [] {
      CountBelowStep(qids[1..], v);
    }
  }

  lemma {:induction false} OccurrencesAtMostOne(qids: seq<int>, v: int)
    requires NoDuplicates(qids)
    ensures Occurrences(qids, v) <= 1
  {
    if qids != [] {
      OccurrencesAtMostOne(qids[1..], v);
      if qids[0] == v {
        assert v !in qids[1..] by {
          forall j | 0 <= j < |qids[1..]| ensures qids[1..][j] != v {
            assert qids[1..][j] == qids[j + 1];
          }
        }
      }
    }
  }

  /** The unlisted part of a run of consecutive ids b .. hi - 1, with the ids they will be given. */
  lemma {:induction false} KeptDense(qs: seq<QubitState>, qids: seq<int>, b: int, hi: int)
    requires NoDuplicates(qids)
    requires hi == b + |qs|
    requires forall k :: 0 <= k < |qs| ==> qs[k].id == b + k
    ensures |KeepQubits(qs, qids)| == |qs| - (CountBelow(qids, hi) - CountBelow(qids, b))
    ensures forall j :: 0 <= j < |KeepQubits(qs, qids)| ==>
      NewId(KeepQubits(qs, qids)[j].id, qids) == b - CountBelow(qids, b) + j
    decreases |qs|
  {
    if qs != [] {
      var rest := qs[1..];
      forall k | 0 <= k < |rest| ensures rest[k].id == (b + 1) + k {
        assert rest[k] == qs[k + 1];
      }
      KeptDense(rest, qids, b + 1, hi);
      CountBelowStep(qids, b);
      OccurrencesAtMostOne(qids, b);
      var keptRest := KeepQubits(rest, qids);
      assert qs[0].id == b;
      if b !in qids {
        var kept := [qs[0]] + keptRest;
        assert KeepQubits(qs, qids) == kept;
        forall j | 0 <= j < |kept| ensures NewId(kept[j].id, qids) == b - CountBelow(qids, b) + j {
          if j > 0 {
            assert kept[j] == keptRest[j - 1];
          }
        }
      } else {
        assert KeepQubits(qs, qids) == keptRest;
      }
    }
  }

  /**
   * Renumbering keeps ids dense. If the ids are b, b+1, ... in order and qids
   * has no duplicates, the survivors get consecutive ids starting at
   * b - CountBelow(qids, b), and exactly the listed ids inside the range are gone.
   */
  lemma DeleteKeepsIdsDense(qs: seq<QubitState>, qids: seq<int>, b: int)
    requires NoDuplicates(qids)
    requires forall k :: 0 <= k < |qs| ==> qs[k].id == b + k
    ensures |DeleteQubits(qs, qids)| == |qs| - (CountBelow(qids, b + |qs|) - CountBelow(qids, b))
    ensures forall j :: 0 <= j < |DeleteQubits(qs, qids)| ==> DeleteQubits(qs, qids)[j].id == b - CountBelow(qids, b) + j
  {
    KeptDense(qs, qids, b, b + |qs|);
  }

  /**
   * Deleting distinct ids that all lie in the range of densely numbered
   * qubits leaves the rest densely numbered from the same first id.
   */
  lemma DeleteFromDense(qs: seq<QubitState>, qids: seq<int>, b: int)
    requires NoDuplicates(qids)
    requires forall k :: 0 <= k < |qs| ==> qs[k].id == b + k
    requires forall k :: 0 <= k < |qids| ==> b <= qids[k] < b + |qs|
    ensures |DeleteQubits(qs, qids)| == |qs| - |qids|
    ensures forall j :: 0 <= j < |DeleteQubits(qs, qids)| ==> DeleteQubits(qs, qids)[j].id == b + j
  {
    CountBelowRange(qids, b, b + |qs|);
    DeleteKeepsIdsDense(qs, qids, b);
  }

  /** With every entry in [lo, hi), none lies below lo and all lie below hi. */
  lemma {:induction false} CountBelowRange(qids: seq<int>, lo: int, hi: int)
    requires forall k :: 0 <= k < |qids| ==> lo <= qids[k] < hi
    ensures CountBelow(qids, lo) == 0
    ensures CountBelow(qids, hi) == |qids|
  {
    if qids != [] {
      CountBelowRange(qids[1..], lo, hi);
    }
  }

  /** kept lists s at the positions ks, in that order. */
  ghost predicate Picks<T>(kept: seq<T>, s: seq<T>, ks: seq<nat>) {
    |kept| == |ks| && forall j :: 0 <= j < |ks| ==> ks[j] < |s| && kept[j] == s[ks[j]]
  }

  /** Keeping s[i] in front of a pick keeps it a pick. */
  lemma PicksPrepend<T>(kept: seq<T>, s: seq<T>, ks: seq<nat>, i: nat)
    requires Picks(kept, s, ks) && i < |s|
    ensures Picks([s[i]] + kept, s, [i] + ks)
  {
    var kept', ks' := [s[i]] + kept, [i] + ks;
    forall j | 0 <= j < |ks'| ensures ks'[j] < |s| && kept'[j] == s[ks'[j]] {
      if j > 0 {
        assert kept'[j] == kept[j - 1] && ks'[j] == ks[j - 1];
      }
    }
  }

  /**
   * The qubit filter is order-preserving: from position i on, it takes qs at
   * exactly the increasing indices of the unlisted qubits.
   */
  lemma {:induction false} KeepQubitsInOrder(qs: seq<QubitState>, qids: seq<int>, i: nat)
    requires i <= |qs|
    ensures Picks(KeepQubits(qs[i..], qids), qs, KeptQubitIndices(qs, qids, i))
    decreases |qs| - i
  {
    if i < |qs| {
      KeepQubitsInOrder(qs, qids, i + 1);
      assert qs[i..][1..] == qs[i + 1..];
      if qs[i].id !in qids {
        PicksPrepend(KeepQubits(qs[i + 1..], qids), qs, KeptQubitIndices(qs, qids, i + 1), i);
      }
    }
  }

  /** The coupler filter is order-preserving in the same way. */
  lemma {:induction false} KeepCouplersInOrder(cs: seq<CouplerState>, qids: seq<int>, i: nat)
    requires i <= |cs|
    ensures Picks(KeepCouplers(cs[i..], qids), cs, KeptCouplerIndices(cs, qids, i))
    decreases |cs| - i
  {
    if i < |cs| {
      KeepCouplersInOrder(cs, qids, i + 1);
      assert cs[i..][1..] == cs[i + 1..];
      if cs[i].qubitA !in qids && cs[i].qubitB !in qids {
        PicksPrepend(KeepCouplers(cs[i + 1..], qids), cs, KeptCouplerIndices(cs, qids, i + 1), i);
      }
    }
  }

  /**
   * The survivors are the unlisted qubits in their old order: survivor j is
   * the qubit at the j-th kept index, its id lowered by the listed ids below it.
   */
  lemma DeleteQubitsSurvivors(qs: seq<QubitState>, qids: seq<int>)
    ensures var r, ks := DeleteQubits(qs, qids), KeptQubitIndices(qs, qids, 0);
      && |r| == |ks|
      && (forall j :: 0 <= j < |r| ==> qs[ks[j]].id !in qids)
      && (forall j :: 0 <= j < |r| ==> r[j] == qs[ks[j]].(id := NewId(qs[ks[j]].id, qids)))
  {
    KeepQubitsInOrder(qs, qids, 0);
    assert qs[0..] == qs;
  }

  /** Survivors that were in increasing id order stay in increasing id order (no duplicate qids). */
  lemma {:induction false} NewIdMonotone(qids: seq<int>, u: int, v: int)
    requires NoDuplicates(qids)
    requires u < v && u !in qids
    ensures NewId(u, qids) < NewId(v, qids)
    decreases v - u
  {
    CountBelowStep(qids, u);
    OccurrencesAtMostOne(qids, u);
    if u + 1 < v {
      if u + 1 in qids {
        // u+1 is listed, so its count rises by one at u+2; walk past it.
        CountBelowStep(qids, u + 1);
        OccurrencesAtMostOne(qids, u + 1);
        if u + 2 < v {
          NewIdMonotoneFrom(qids, u + 2, v);
        }
      } else {
        NewIdMonotone(qids, u + 1, v);
      }
    }
  }

  /** The shift never jumps past an id: NewId is non-decreasing. */
  lemma {:induction false} NewIdMonotoneFrom(qids: seq<int>, u: int, v: int)
    requires NoDuplicates(qids)
    requires u <= v
    ensures NewId(u, qids) <= NewId(v, qids)
    decreases v - u
  {
    if u < v {
      CountBelowStep(qids, u);
      OccurrencesAtMostOne(qids, u);
      NewIdMonotoneFrom(qids, u + 1, v);
    }
  }

  /** No surviving coupler touches a deleted qubit, and every survivor is an old coupler with both ends kept. */
  lemma DeleteCouplersCascade(cs: seq<CouplerState>, qids: seq<int>)
    ensures var r := DeleteCouplers(cs, qids); var kept := KeepCouplers(cs, qids);
      && |r| == |kept|
      && forall j :: 0 <= j < |r| ==>
           && kept[j] in cs && kept[j].qubitA !in qids && kept[j].qubitB !in qids
           && r[j] == kept[j].(qubitA := NewId(kept[j].qubitA, qids), qubitB := NewId(kept[j].qubitB, qids))
  {
    var kept := KeepCouplers(cs, qids);
    forall j | 0 <= j < |kept| ensures kept[j] in cs && kept[j].qubitA !in qids && kept[j].qubitB !in qids {
      assert kept[j] in kept;
    }
  }

  /** Every coupler endpoint names a qubit: no dangling coupler before, none after. */
  predicate EndpointsExist(qs: seq<QubitState>, cs: seq<CouplerState>) {
    forall c :: c in cs ==>
      (exists q :: q in qs && q.id == c.qubitA) && (exists q :: q in qs && q.id == c.qubitB)
  }

  /** A qubit that is not deleted is still there afterwards, under its new id. */
  lemma SurvivorRenamed(qs: seq<QubitState>, qids: seq<int>, id: int)
    requires exists q :: q in qs && q.id == id
    requires id !in qids
    ensures exists q :: q in DeleteQubits(qs, qids) && q.id == NewId(id, qids)
  {
    var kq := KeepQubits(qs, qids);
    var q :| q in qs && q.id == id;
    assert q in kq;
    var i :| 0 <= i < |kq| && kq[i] == q;
    assert DeleteQubits(qs, qids)[i] in DeleteQubits(qs, qids);
  }

  lemma DeletePreservesEndpoints(qs: seq<QubitState>, cs: seq<CouplerState>, qids: seq<int>)
    requires EndpointsExist(qs, cs)
    ensures EndpointsExist(DeleteQubits(qs, qids), DeleteCouplers(cs, qids))
  {
    var kc := KeepCouplers(cs, qids);
    var rq := DeleteQubits(qs, qids);
    var rc := DeleteCouplers(cs, qids);
    forall c | c in rc
      ensures (exists q :: q in rq && q.id == c.qubitA) && (exists q :: q in rq && q.id == c.qubitB)
    {
      var j :| 0 <= j < |rc| && rc[j] == c;
      assert kc[j] in kc;
      SurvivorRenamed(qs, qids, kc[j].qubitA);
      SurvivorRenamed(qs, qids, kc[j].qubitB);
    }
  }

  /** deleteQubit(k) is deleteQubits([k]): a shift of one above k. */
  lemma {:induction false} DeleteQubitIsSingleCase(qs: seq<QubitState>, cs: seq<CouplerState>, qid: int)
    ensures DeleteQubit(qs, qid) == DeleteQubits(qs, [qid])
    ensures DeleteCoupler(cs, qid) == DeleteCouplers(cs, [qid])
  {
    KeepQubitsSingle(qs, qid);
    KeepCouplersSingle(cs, qid);
    forall id: int ensures LowerAbove(id, qid) == NewId(id, [qid]) {
      assert [qid][1..] == [];
    }
  }

  lemma {:induction false} KeepQubitsSingle(qs: seq<QubitState>, qid: int)
    ensures KeepQubitsExcept(qs, qid) == KeepQubits(qs, [qid])
  {
    if qs != [] {
      KeepQubitsSingle(qs[1..], qid);
    }
  }

  lemma {:induction false} KeepCouplersSingle(cs: seq<CouplerState>, qid: int)
    ensures KeepCouplersExcept(cs, qid) == KeepCouplers(cs, [qid])
  {
    if cs != [] {
      KeepCouplersSingle(cs[1..], qid);
    }
  }
}

/**
 * Canonical element names (sketch.js, Qubit.getName and Coupler.getName).
 * A qubit is named "Q" followed by its id written in decimal and left-padded
 * with '0' to the chip's name length; a coupler is named "G" followed by the
 * two endpoint suffixes, the one of the lexicographically larger qubit name
 * first.
 */
module Naming {
  import opened Common

  function DigitChar(d: nat): char
    requires d < 10
  {
    "0123456789"[d]
  }

  predicate IsDigit(c: char) {
    '0' <= c <= '9'
  }

  /** Number.prototype.toString() for a non-negative integer. */
  function NatToString(n: nat): string
    decreases n
  {
    if n < 10 then [DigitChar(n)] else NatToString(n / 10) + [DigitChar(n % 10)]
  }

  /** Number.prototype.toString() for an integer: a '-' sign, then the digits. */
  function IntToString(i: int): string {
    if i < 0 then "-" + NatToString(-i) else NatToString(i)
  }

  function Zeros(k: nat): (z: string)
    ensures |z| == k && forall i :: 0 <= i < k ==> z[i] == '0'
  {
    seq(k, _ => '0')
  }

  /** String.prototype.padStart(len, "0"). */
  function PadStart(s: string, len: int): string {
    if |s| >= len then s else Zeros(len - |s|) + s
  }

  /** padStart only adds '0's in front, up to len characters. */
  lemma PadStartShape(s: string, len: int)
    ensures var r := PadStart(s, len);
      |r| == (if |s| >= len then |s| else len) && r[|r| - |s|..] == s &&
      forall i :: 0 <= i < |r| - |s| ==> r[i] == '0'
  {
    var r := PadStart(s, len);
    if |s| < len {
      assert r[|r| - |s|..] == s;
    }
  }

  /** The part of a qubit name after the "Q": the id, zero-padded. */
  function QubitSuffix(id: int, nameLength: int): string {
    PadStart(IntToString(id), nameLength)
  }

  /** Qubit.getName(qubitNameLength). */
  function QubitName(id: int, nameLength: int): string {
    "Q" + QubitSuffix(id, nameLength)
  }

  /** JavaScript's `a < b` on strings: lexicographic order on code units, a proper prefix first. */
  predicate StrLess(a: string, b: string) {
    StrLessFrom(a, b, 0)
  }

  /** The same comparison, from position i on. */
  predicate StrLessFrom(a: string, b: string, i: nat)
    requires i <= |a| && i <= |b|
    decreases |a| - i
  {
    if i == |a| then i < |b|
    else if i == |b| then false
    else if a[i] != b[i] then a[i] < b[i]
    else StrLessFrom(a, b, i + 1)
  }

  /**
   * Coupler.getName(qubitNameLength): "G", then the suffixes (substring(1))
   * of the two qubit names, the larger name's first.
   */
  function CouplerName(idA: int, idB: int, nameLength: int): string {
    var q1 := QubitName(idA, nameLength);
    var q2 := QubitName(idB, nameLength);
    if StrLess(q2, q1) then "G" + QubitSuffix(idA, nameLength) + QubitSuffix(idB, nameLength)
    else "G" + QubitSuffix(idB, nameLength) + QubitSuffix(idA, nameLength)
  }

  // ---------------------------------------------------------------------------
  // Reading a qubit name back: the inverse of QubitName.

  /** Value of a string of decimal digits, most significant first. */
  function DigitsValue(s: string): Option<nat>
  {
    if s == [] then None
    else if !IsDigit(s[|s| - 1]) then None
    else if |s| == 1 then Some((s[0] - '0') as nat)
    else match DigitsValue(s[..|s| - 1])
      case None => None
      case Some(v) => Some(10 * v + (s[|s| - 1] - '0') as nat)
  }

  function StripZeros(s: string): (r: string)
    ensures |r| <= |s| && r == s[|s| - |r|..]
    ensures r != [] ==> r[0] != '0'
  {
    if s != [] && s[0] == '0' then StripZeros(s[1..]) else s
  }

  /** The id a qubit name stands for, or None when the text is not a qubit name. */
  function ParseQubitName(name: string): Option<int> {
    if name == [] || name[0] != 'Q' then None
    else
      var t := StripZeros(name[1..]);
      if t == [] then Some(0)
      else if t[0] == '-' then
        match DigitsValue(t[1..])
        case None => None
        case Some(v) => Some(0 - v)
      else
        match DigitsValue(t)
        case None => None
        case Some(v) => Some(v)
  }

  lemma {:induction false} NatToStringShape(n: nat)
    ensures NatToString(n) != []
    ensures forall i :: 0 <= i < |NatToString(n)| ==> IsDigit(NatToString(n)[i])
    ensures n > 0 ==> NatToString(n)[0] != '0'
    decreases n
  {
    if n >= 10 {
      NatToStringShape(n / 10);
    }
  }

  lemma {:induction false} DigitsValueOfNat(n: nat)
    ensures DigitsValue(NatToString(n)) == Some(n)
    decreases n
  {
    if n >= 10 {
      DigitsValueOfNat(n / 10);
      NatToStringShape(n / 10);
      var s := NatToString(n);
      assert s[..|s| - 1] == NatToString(n / 10);
    }
  }

  lemma {:induction false} StripZerosPrefix(k: nat, s: string)
    requires s != [] && s[0] != '0'
    ensures StripZeros(Zeros(k) + s) == s
    decreases k
  {
    if k > 0 {
      assert (Zeros(k) + s)[1..] == Zeros(k - 1) + s;
    } else {
      assert Zeros(k) + s == s;
    }
    if k > 0 { StripZerosPrefix(k - 1, s); }
  }

  lemma {:induction false} StripAllZeros(k: nat)
    ensures StripZeros(Zeros(k)) == []
    decreases k
  {
    if k > 0 {
      assert Zeros(k)[1..] == Zeros(k - 1);
      StripAllZeros(k - 1);
    }
  }

  lemma PaddedZero(k: nat)
    ensures StripZeros(Zeros(k) + IntToString(0)) == []
  {
    assert Zeros(k) + IntToString(0) == Zeros(k + 1);
    StripAllZeros(k + 1);
  }

  /** A negative id is written as '-' followed by the digits of its magnitude. */
  lemma NegativeNumeral(id: int)
    requires id < 0
    ensures IntToString(id) == ['-'] + NatToString(-id)
    ensures DigitsValue(NatToString(-id)) == Some(-id)
  {
    DigitsValueOfNat(-id);
  }

  lemma PaddedNegative(id: int, k: nat)
    requires id < 0
    ensures var t := StripZeros(Zeros(k) + IntToString(id));
      t != [] && t[0] == '-' && DigitsValue(t[1..]) == Some(-id)
  {
    NegativeNumeral(id);
    StripZerosPrefix(k, IntToString(id));
    assert (['-'] + NatToString(-id))[1..] == NatToString(-id);
  }

  lemma PaddedPositive(id: int, k: nat)
    requires id > 0
    ensures var t := StripZeros(Zeros(k) + IntToString(id));
      t != [] && t[0] != '-' && DigitsValue(t) == Some(id)
  {
    NatToStringShape(id);
    StripZerosPrefix(k, IntToString(id));
    DigitsValueOfNat(id);
  }

  /** Round trip: the name of a qubit reads back as its id, whatever the padding. */
  lemma QubitNameRoundTrip(id: int, nameLength: int)
    ensures ParseQubitName(QubitName(id, nameLength)) == Some(id)
  {
    var s := IntToString(id);
    var p := PadStart(s, nameLength);
    var k := |p| - |s|;
    assert p == Zeros(k) + s;
    assert QubitName(id, nameLength)[1..] == p;
    if id == 0 {
      PaddedZero(k);
    } else if id < 0 {
      PaddedNegative(id, k);
    } else {
      PaddedPositive(id, k);
    }
  }

  /** Distinct ids always get distinct qubit names. */
  lemma QubitNameInjective(a: int, b: int, nameLength: int)
    requires QubitName(a, nameLength) == QubitName(b, nameLength)
    ensures a == b
  {
    QubitNameRoundTrip(a, nameLength);
    QubitNameRoundTrip(b, nameLength);
  }

  lemma {:induction false} StrLessFromTotal(a: string, b: string, i: nat)
    requires i <= |a| && i <= |b| && a[..i] == b[..i]
    ensures a == b || StrLessFrom(a, b, i) || StrLessFrom(b, a, i)
    ensures !(StrLessFrom(a, b, i) && StrLessFrom(b, a, i))
    decreases |a| - i
  {
    if i < |a| && i < |b| && a[i] == b[i] {
      assert a[..i + 1] == a[..i] + [a[i]] && b[..i + 1] == b[..i] + [b[i]];
      StrLessFromTotal(a, b, i + 1);
    } else if i == |a| && i == |b| {
      assert a == a[..i] && b == b[..i];
    }
  }

  /** The string order is total and asymmetric. */
  lemma StrLessTotal(a: string, b: string)
    ensures a == b || StrLess(a, b) || StrLess(b, a)
    ensures !(StrLess(a, b) && StrLess(b, a))
  {
    StrLessFromTotal(a, b, 0);
  }

  /** A coupler's name does not depend on which endpoint is qubitA. */
  lemma CouplerNameSymmetric(idA: int, idB: int, nameLength: int)
    ensures CouplerName(idA, idB, nameLength) == CouplerName(idB, idA, nameLength)
  {
    var q1, q2 := QubitName(idA, nameLength), QubitName(idB, nameLength);
    StrLessTotal(q1, q2);
    if q1 == q2 {
      assert q1[1..] == QubitSuffix(idA, nameLength) && q2[1..] == QubitSuffix(idB, nameLength);
    }
  }

  /** A coupler name joins the two suffixes, the larger qubit name's first. */
  lemma CouplerNameOrder(idA: int, idB: int, nameLength: int)
    ensures var q1 := QubitName(idA, nameLength); var q2 := QubitName(idB, nameLength);
      CouplerName(idA, idB, nameLength) ==
        if StrLess(q1, q2) then "G" + q2[1..] + q1[1..] else "G" + q1[1..] + q2[1..]
  {
    StrLessTotal(QubitName(idA, nameLength), QubitName(idB, nameLength));
  }

  /**
   * Once ids have more digits than the padding, the suffixes are no longer
   * of one width and two different couplers can share a name: Q3-Q12 and
   * Q31-Q2 are both "G312" with qubitNameLength 1.
   */
  lemma CouplerNamesCollide()
    ensures CouplerName(3, 12, 1) == CouplerName(31, 2, 1) == "G312"
  {
    assert IntToString(3) == "3" && IntToString(12) == "12";
    assert IntToString(31) == "31" && IntToString(2) == "2";
    assert QubitName(12, 1) == "Q12" && QubitName(3, 1) == "Q3";
    assert QubitName(31, 1) == "Q31" && QubitName(2, 1) == "Q2";
    assert StrLess("Q12", "Q3");
    assert StrLess("Q2", "Q31");
  }

  /** Qubit and coupler names never coincide. */
  lemma QubitAndCouplerNamesDiffer(id: int, idA: int, idB: int, nameLength: int)
    ensures QubitName(id, nameLength) != CouplerName(idA, idB, nameLength)
  {
    assert QubitName(id, nameLength)[0] == 'Q';
    assert CouplerName(idA, idB, nameLength)[0] == 'G';
  }
}

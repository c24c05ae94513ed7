/** The five interaction modes of sketch.js and the rules that depend on them. */
module Modes {
  /** Mode.TOPOLOGY, QUBIT, COUPLER, QATTR and CATTR. */
  datatype Mode = Topology | Qubit | Coupler | QubitAttr | CouplerAttr

  /** isListMode: selections are group indices. */
  predicate IsListMode(mode: Mode) {
    mode == Qubit || mode == Coupler
  }

  /** isAttrMode: selections carry a free-form attribute. */
  predicate IsAttrMode(mode: Mode) {
    mode == QubitAttr || mode == CouplerAttr
  }

  /** The mode-radio listener resets the chip when leaving Topology or when attribute-ness changes. */
  predicate ResetsOnModeChange(prev: Mode, next: Mode) {
    prev == Topology || (IsAttrMode(prev) && !IsAttrMode(next)) || (!IsAttrMode(prev) && IsAttrMode(next))
  }

  /** Every mode is exactly one of Topology, a list mode or an attribute mode. */
  lemma ModesPartition(mode: Mode)
    ensures mode == Topology || IsListMode(mode) || IsAttrMode(mode)
    ensures !(IsListMode(mode) && IsAttrMode(mode))
    ensures mode == Topology ==> !IsListMode(mode) && !IsAttrMode(mode)
  {
  }

  /** Switching resets exactly when leaving Topology or crossing between list and attribute modes. */
  lemma ResetRule(prev: Mode, next: Mode)
    ensures ResetsOnModeChange(prev, next) <==> prev == Topology || IsAttrMode(prev) != IsAttrMode(next)
    ensures prev != Topology && IsListMode(prev) && IsListMode(next) ==> !ResetsOnModeChange(prev, next)
    ensures IsAttrMode(prev) && IsAttrMode(next) ==> !ResetsOnModeChange(prev, next)
  {
  }
}

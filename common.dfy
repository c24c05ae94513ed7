/** Small shared datatypes. */
module Common {
  /** A value that may be absent: JavaScript's `null` / `undefined`. */
  datatype Option<T> = None | Some(value: T)

  /** Concatenation is associative. */
  lemma ConcatAssoc<T>(a: seq<T>, b: seq<T>, c: seq<T>)
    ensures (a + b) + c == a + (b + c)
  {
  }
}

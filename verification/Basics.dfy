/** Small types shared by the components. */
module Basics {

  /** A value that may be absent: the source's pointers that may be NULL. */
  datatype Option<+T> = None | Some(value: T)

  /** The identifier of a map item, compared by both halves. */
  datatype ItemId = ItemId(hi: int, lo: int)

  lemma UpdateTwice<K, V>(m: map<K, V>, k: K, a: V, b: V)
    ensures m[k := a][k := b] == m[k := b]
  {
  }

  /** A quotient in C, rounded towards zero. */
  function CDiv(a: int, b: int): int
    requires b != 0
  {
    if a >= 0 then (if b > 0 then a / b else -(a / -b)) else (if b > 0 then -(-a / b) else -a / -b)
  }

  /** The values of a C `int`. */
  predicate Int32(a: int) {
    -0x8000_0000 <= a < 0x8000_0000
  }
}

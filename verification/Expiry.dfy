/** Redis keys that expire. */
module Expiry {
  import opened Text

  /** A stored value with its expiry time. */
  datatype Cell<T> = Cell(value: T, expireAt: int)

  /** What GET returns: nothing for a missing key or once it has expired. */
  function Read<T>(cell: Option<Cell<T>>, now: int): Option<T> {
    if cell.Some? && now < cell.value.expireAt then Some(cell.value.value) else None
  }

  /** Whether a key that carries no value of interest, such as a lock, is there. */
  predicate Live<K>(expiries: map<K, int>, key: K, now: int) {
    key in expiries && Read(Some(Cell((), expiries[key])), now).Some?
  }
}

/** What every component shares. */
module Common {

  datatype Option<+T> = None | Some(value: T)

  const TWO32: int := 0x1_0000_0000

  /** An unsigned 32-bit value. */
  type Word = x: nat | x < 0x1_0000_0000

  function Max(a: int, b: int): int { if a < b then b else a }

  /** No element occurs twice. */
  ghost predicate Distinct<T>(s: seq<T>) { forall i, j | 0 <= i < j < |s| :: s[i] != s[j] }
}

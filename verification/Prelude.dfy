/** Small definitions shared by every module. */
module Prelude {

  datatype Option<+T> = None | Some(value: T)

  /** Bytes in one physical page. */
  const PAGE_SIZE: nat := 4096

  /** Rust's `div_ceil` on unsigned integers: the least `r` with `a <= r * b`. */
  function DivCeil(a: nat, b: nat): (r: nat)
    requires 0 < b
    ensures a <= r * b < a + b
  {
    (a + b - 1) / b
  }

  /** Later lines start at least one line length further on. */
  lemma {:induction false} LineStarts(a: nat, b: nat, c: nat)
    requires a < b
    ensures a * c + c <= b * c
    decreases b
  {
    assert (b - 1) * c + c == b * c;
    if a < b - 1 {
      LineStarts(a, b - 1, c);
    }
  }
}

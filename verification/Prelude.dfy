/** What several parts of the model share. */
module Prelude {

  datatype Option<T> = None | Some(value: T)

  /** Words and addresses have 32 bits. */
  const WORD := 0x1_0000_0000

  /** Where the kernel sees physical memory, on a MIPS. */
  const KSEG0 := 0x8000_0000

  /** A remainder is known by its quotient. */
  lemma RemainderIs(x: int, m: int, q: int, r: int)
    requires 0 <= r < m && x == q * m + r
    ensures x % m == r
  {
    Multiple(q - x / m, m);
  }

  lemma Multiple(k: int, m: int)
    requires m > 0
    ensures k == 0 || k * m >= m || k * m <= -m
  {
  }

  lemma SubsetSize<T>(a: set<T>, b: set<T>)
    requires a <= b
    ensures |a| <= |b| && (|a| == |b| ==> a == b)
  {
    assert b == a + (b - a) && |b| == |a| + |b - a|;
  }
}

/** Unsigned machine integers of the monitored system, with wrap-around written out. */
module MachineInts {

  const TWO_64: int := 0x1_0000_0000_0000_0000
  const TWO_32: int := 0x1_0000_0000

  type u64 = x: int | 0 <= x < TWO_64
  type u32 = x: int | 0 <= x < TWO_32

  function Add64(a: u64, b: u64): u64 { (a + b) % TWO_64 }

  function Sub64(a: u64, b: u64): u64 { (a - b) % TWO_64 }

  function Mul64(a: u64, b: u64): u64 { (a * b) % TWO_64 }

  /** A wrapped product never exceeds the true one. */
  lemma WrappedProduct(a: u64, b: u64)
    ensures Mul64(a, b) <= a * b
  {
    assert 0 <= a * b;
    assert a * b == TWO_64 * ((a * b) / TWO_64) + Mul64(a, b);
    assert 0 <= (a * b) / TWO_64;
  }
}

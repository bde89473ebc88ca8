/** Machine integers of the kernel program, written out over the mathematical integers. */
module Machine {

  datatype Option<+T> = None | Some(value: T)

  const TWO32: int := 0x1_0000_0000

  /** One second, the unit of every window in the filter, in the nanoseconds of bpf_ktime_get_ns. */
  const SECOND: int := 1_000_000_000

  type u8 = x: int | 0 <= x < 0x100
  type u16 = x: int | 0 <= x < 0x1_0000
  type u32 = x: int | 0 <= x < 0x1_0000_0000
  type u64 = x: int | 0 <= x < 0x1_0000_0000_0000_0000

  function W16(x: int): u16 { x % 0x1_0000 }

  function W32(x: int): u32 { x % 0x1_0000_0000 }

  function W64(x: int): u64 { x % 0x1_0000_0000_0000_0000 }

  /** u32 and u64 addition, wrapping around. */
  function Add32(a: u32, b: u32): u32 {
    if a + b < 0x1_0000_0000 then a + b else a + b - 0x1_0000_0000
  }

  function Add64(a: u64, b: u64): u64 {
    if a + b < 0x1_0000_0000_0000_0000 then a + b else a + b - 0x1_0000_0000_0000_0000
  }

  /** The time between two clock readings: u64 subtraction, wrapping around. */
  function Elapsed(now: u64, before: u64): u64 {
    if before <= now then now - before else now - before + 0x1_0000_0000_0000_0000
  }

  /** A wrapped sum of wrapped sums is the wrapped whole. */
  lemma {:induction false} WrapAdd32(a: int, b: int)
    ensures Add32(W32(a), W32(b)) == W32(a + b)
  {
  }

  lemma {:induction false} WrapAdd64(a: int, b: int)
    ensures Add64(W64(a), W64(b)) == W64(a + b)
  {
  }

  lemma {:induction false} Unwrapped16(a: int)
    requires 0 <= a < 0x1_0000
    ensures W16(a) == a
  {
  }

  lemma {:induction false} Unwrapped32(a: int)
    requires 0 <= a < TWO32
    ensures W32(a) == a
  {
  }

  lemma {:induction false} Unwrapped64(a: int)
    requires 0 <= a < 0x1_0000_0000_0000_0000
    ensures W64(a) == a
  {
  }

  /** Whole seconds in a number of nanoseconds, rounded down. */
  function PerSecond(x: nat): nat { x / 1_000_000_000 }

  function Nano(x: int): int { x * 1_000_000_000 }

  function Max(a: int, b: int): int { if a >= b then a else b }

  function Min(a: int, b: int): int { if a <= b then a else b }

  /** Whether the bits of a one-bit mask are set in a byte or a half word. */
  predicate Bit(word: nat, mask: nat)
    requires mask > 0
  {
    word / mask % 2 == 1
  }

  /** bpf_map_lookup_elem: the entry of a key, or nothing. */
  function Lookup<K, V>(m: map<K, V>, k: K): Option<V> {
    if k in m then Some(m[k]) else None
  }
}

/** What the Soroban host gives every contract: fixed-width integers whose overflow
    aborts the call, addresses, and calls that either commit or leave storage alone. */
module Host {

  const U32_MAX := 0xFFFF_FFFF
  const U64_MAX := 0xFFFF_FFFF_FFFF_FFFF
  const I128_MAX := 0x7FFF_FFFF_FFFF_FFFF_FFFF_FFFF_FFFF_FFFF

  type u32 = x: int | 0 <= x <= 0xFFFF_FFFF
  type u64 = x: int | 0 <= x <= 0xFFFF_FFFF_FFFF_FFFF
  type u128 = x: int | 0 <= x <= 0xFFFF_FFFF_FFFF_FFFF_FFFF_FFFF_FFFF_FFFF
  type i128 = x: int |
    -0x8000_0000_0000_0000_0000_0000_0000_0000 <= x <= 0x7FFF_FFFF_FFFF_FFFF_FFFF_FFFF_FFFF_FFFF

  predicate FitsI128(x: int) {
    -0x8000_0000_0000_0000_0000_0000_0000_0000 <= x <= I128_MAX
  }

  /** Strkeys starting with G are accounts, those starting with C are contracts. */
  datatype Address = Account(id: nat) | Contract(id: nat)

  /** A 32-byte digest; contracts only compare digests. */
  type Hash = nat

  type Symbol = string

  datatype Option<+T> = None | Some(value: T)

  /** How a call ends. `Err` is a typed contract error, `Trap` an abort: an arithmetic
      overflow, a missing authorization, a failed `expect`, a failed callee. The host
      rolls storage back in both cases. */
  datatype Verdict<+E> = Ok | Err(error: E) | Trap

  function Min(a: int, b: int): int { if a <= b then a else b }

  function Max(a: int, b: int): int { if a <= b then b else a }

  function SatAddU32(a: u32, b: u32): u32 { Min(a + b, U32_MAX) }

  function SatSub(a: nat, b: nat): nat { Max(a - b, 0) }

  /** `i128::saturating_add`. */
  function SatAddI128(a: i128, b: i128): i128 {
    if a + b > I128_MAX then I128_MAX
    else if a + b < -I128_MAX - 1 then -I128_MAX - 1
    else a + b
  }

  /** Rust's `/` on signed integers: truncation toward zero. */
  function TruncDiv(a: int, b: int): int
    requires b > 0
  {
    if a >= 0 then a / b else -((-a) / b)
  }

  function GetOr<K, V>(m: map<K, V>, k: K, default: V): V {
    if k in m then m[k] else default
  }
}

/** What several programs of the system share: 32-bit numbers, an answer that may be missing, small arithmetic. */
module CTypes {

  const UINT32 := 0x1_0000_0000

  type u32 = x: int | 0 <= x < UINT32

  datatype Option<T> = None | Some(value: T)

  /** A wider value kept in a signed 32-bit variable. */
  function Narrow(n: int): (r: int)
    ensures -0x8000_0000 <= r < 0x8000_0000 && (n - r) % UINT32 == 0
    ensures -0x8000_0000 <= n < 0x8000_0000 ==> r == n
    ensures n >= 0x8000_0000 ==> r < n
  {
    var low := n % UINT32;
    if low < 0x8000_0000 then low else low - UINT32
  }

  /** 1 for true. */
  function One(b: bool): (n: int)
    ensures 0 <= n <= 1
  {
    if b then 1 else 0
  }

  function Min(a: nat, b: nat): (m: nat)
    ensures m <= a && m <= b && (m == a || m == b)
  {
    if a <= b then a else b
  }
}

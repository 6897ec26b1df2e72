/**
 * The parts of the FRAME runtime that the three pallets lean on: the origin of a call,
 * the `ensure_signed` / `ensure_root` guards, dispatch errors and `u32` saturating arithmetic.
 */
module Frame {
  import opened Wrappers

  /** Accounts are opaque identifiers; the pallets only compare them. */
  type AccountId = nat

  const U32Max: nat := 0xFFFF_FFFF

  type U32 = x: nat | x <= U32Max

  /** `RawOrigin`: root, a signed account, or an unsigned (`None`) origin. */
  datatype Origin = Root | Signed(who: AccountId) | Unsigned

  /** `DispatchError`: a bad origin, or one of the pallet's own errors. */
  datatype DispatchError<+E> = BadOrigin | Module(error: E)

  /** `ensure_signed`: the caller's account, or `BadOrigin` for root and unsigned origins. */
  function EnsureSigned<E>(origin: Origin): (r: Result<AccountId, DispatchError<E>>)
    ensures r.Ok? <==> origin.Signed?
    ensures r.Ok? ==> r.value == origin.who
    ensures r.Err? ==> r.error == BadOrigin
  {
    match origin
    case Signed(who) => Ok(who)
    case _ => Err(BadOrigin)
  }

  /** `u32::saturating_add`. */
  function SaturatingAdd(a: U32, b: U32): (r: U32)
    ensures r == if a + b <= U32Max then a + b else U32Max
    ensures a <= r
  {
    if a + b <= U32Max then a + b else U32Max
  }

  /** `u32::saturating_sub`. */
  function SaturatingSub(a: U32, b: U32): (r: U32)
    ensures r == if b <= a then a - b else 0
    ensures r <= a
  {
    if b <= a then a - b else 0
  }
}

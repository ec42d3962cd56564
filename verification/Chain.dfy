/** What both contracts take from the ledger they run on: addresses, hashes, integer widths, and
    the three ways an entry point can end. */
module Chain {

  /** A Soroban address is an account or a contract. */
  datatype Address = Account(id: nat) | Contract(id: nat)

  /** Thirty-two bytes, read as one big-endian number. */
  type Hash = h: int | 0 <= h < 0x1_0000000000000000_0000000000000000_0000000000000000_0000000000000000

  /** The all-zero hash. */
  const ZERO: Hash := 0

  const MAX_U32: int := 0xFFFF_FFFF
  const MAX_I128: int := 0x7FFF_FFFF_FFFF_FFFF_FFFF_FFFF_FFFF_FFFF
  const MIN_I128: int := -0x8000_0000_0000_0000_0000_0000_0000_0000

  /** The amounts and ledger numbers a caller can pass. */
  type i128 = x: int | MIN_I128 <= x <= MAX_I128
  type u32 = x: int | 0 <= x <= MAX_U32

  /** The refusals an entry point of the registry returns. */
  datatype Error =
    | InvalidAmount
    | NotActive
    | WindowClosed
    | AlreadyAttested
    | InsufficientStake
    | NothingToWithdraw
    | StillUnbonding
    | ClaimNotDecided
    | NotAttested
    | NotDissenter
    | AlreadySlashed
    | NothingToSlash
    | InvalidConfig

  /** Why an invocation can abort. Overflow aborts because the contracts are built with overflow
      checks on. */
  datatype Panic =
    | Unauthorized
    | NegativeAmount
    | InsufficientBalance
    | InsufficientAllowance
    | AllowanceExpired
    | I128Overflow
    | U32Overflow

  /** An invocation returns a value, refuses with an error, or aborts. */
  datatype Outcome<+T> = Ok(value: T) | Err(error: Error) | Trap(panic: Panic) {
    predicate IsFailure() {
      !Ok?
    }

    function PropagateFailure<U>(): Outcome<U>
      requires IsFailure()
    {
      if Err? then Outcome<U>.Err(error) else Outcome<U>.Trap(panic)
    }

    function Extract(): T
      requires Ok?
    {
      value
    }

    /** The outcome with its value forgotten. */
    function Status(): Outcome<()> {
      match this
      case Ok(_) => Outcome<()>.Ok(())
      case Err(e) => Outcome<()>.Err(e)
      case Trap(p) => Outcome<()>.Trap(p)
    }
  }

  /** An `i128` result: the value if it fits, an abort otherwise. */
  function I128(x: int): Outcome<int> {
    if MIN_I128 <= x <= MAX_I128 then Ok(x) else Trap(I128Overflow)
  }

  /** A `u32` result: the value if it fits, an abort otherwise. */
  function U32(x: int): Outcome<int> {
    if 0 <= x <= MAX_U32 then Ok(x) else Trap(U32Overflow)
  }

  /** The two widths: what fits is kept as it is, and nothing else fits. */
  lemma WidthsAre(x: int)
    ensures I128(x) == Ok(x) <==> -170141183460469231731687303715884105728 <= x < 170141183460469231731687303715884105728
    ensures U32(x) == Ok(x) <==> 0 <= x < 4294967296
    ensures !I128(x).Ok? ==> I128(x) == Trap(I128Overflow)
    ensures !U32(x).Ok? ==> U32(x) == Trap(U32Overflow)
  {
  }

  /** `i128` division truncates toward zero. */
  function TruncatedQuotient(a: int, b: int): int
    requires b > 0
  {
    if a >= 0 then a / b else -((-a) / b)
  }
}

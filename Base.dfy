/** Shared vocabulary of the loyalty module model: Go's fixed-width integers,
    failure-compatible result types and the closed set of error kinds the
    keeper can return. */
module Base {

  const TWO_64: int := 0x1_0000_0000_0000_0000
  const MAX_U64: int := 0xFFFF_FFFF_FFFF_FFFF

  /** Go's uint64. Arithmetic on it is written out explicitly where the
      source can wrap (see WrapAdd, WrapSub, WrapMul). */
  type U64 = x: int | 0 <= x <= MAX_U64

  /** Raw address bytes as produced by the address codec. */
  type Bytes = seq<bv8>

  /** Go's unchecked `a + b` on uint64. */
  function WrapAdd(a: U64, b: U64): (r: U64)
    ensures a + b <= MAX_U64 ==> r == a + b
    ensures a + b > MAX_U64 ==> r == a + b - TWO_64 && r < a
  {
    if a + b <= MAX_U64 then a + b else a + b - TWO_64
  }

  /** Go's unchecked `a - b` on uint64. */
  function WrapSub(a: U64, b: U64): (r: U64)
    ensures b <= a ==> r == a - b
    ensures b > a ==> r == a - b + TWO_64 && r > a
  {
    if b <= a then a - b else a - b + TWO_64
  }

  /** Go's unchecked `a * b` on uint64. */
  function WrapMul(a: U64, b: U64): (r: U64)
    ensures a * b <= MAX_U64 ==> r == a * b
    ensures (a * b - r) % TWO_64 == 0
  {
    (a * b) % TWO_64
  }

  datatype Option<+T> = None | Some(value: T)

  /** A Go `(value, error)` pair: either a value or an error. */
  datatype Result<+T> = Ok(value: T) | Err(error: Error) {
    predicate IsFailure() { Err? }
    function PropagateFailure<U>(): Result<U>
      requires Err?
    {
      Err(error)
    }
    function Extract(): T
      requires Ok?
    {
      value
    }
  }

  /** A Go `error` return with no value beside it: nil or an error. */
  datatype Outcome = Pass | Fail(error: Error) {
    predicate IsFailure() { Fail? }
    function PropagateFailure(): Outcome
      requires Fail?
    {
      this
    }
  }

  /** The error kinds the keeper and its queries return. Wrapping messages
      are not modelled, only the sentinel a caller would match with
      `errors.Is`. */
  datatype Error =
    // cosmos-sdk sentinel errors
    | InvalidAddress
    | InvalidRequest
    | KeyNotFound
    | Unauthorized
    | Logic
    | InsufficientFunds
    // the address codec's own error, which some handlers return wrapped only in a message
    | AddressCodec
    // x/loyalty sentinel errors declared in types/errors.go
    | InvalidSigner
    | InvalidCreationMode
    | CreatorNotAllowed
    | TokenExists
    | TokenNotFound
    | InvalidDenom
    | CapExceeded
    | InvalidCap
    | RecoveryPolicy
    | AccrualNotFound
    | RecoveryUnauthorized
    | RecoveryNotQueued
    | RecoveryTooEarly
    | RecoveryBadRequest
    // x/loyalty sentinel errors used by the handlers but not declared in types/errors.go
    | AdminRenounced
    | AdminRenouncePolicy
    | MerchantRouting
    | RewardPoolInsufficient
    // plain `fmt.Errorf` failures of parameter and genesis validation
    | InvalidParams
    | InvalidGenesis
    // gRPC status codes returned by the queries
    | StatusInvalidArgument
    | StatusInternal
}

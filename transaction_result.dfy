/** The record of one transaction's execution (AvmTransactionResult): its
    result code, return data, energy accounting, uncaught exception and
    kernel, and the closed set of result codes. */
module TransactionResult {
  import opened Base

  // ---- Java's long

  const LONG_MIN: int := -0x8000_0000_0000_0000
  const LONG_MAX: int := 0x7fff_ffff_ffff_ffff
  const TWO_64: int := 0x1_0000_0000_0000_0000

  newtype int64 = x: int | -0x8000_0000_0000_0000 <= x < 0x8000_0000_0000_0000

  /** The long holding `x` in two's complement, for an `x` at most one turn
      of the range away from it. */
  function Wrap(x: int): (r: int64)
    requires LONG_MIN - TWO_64 <= x <= LONG_MAX + TWO_64
    ensures r as int == x || r as int == x - TWO_64 || r as int == x + TWO_64
    ensures LONG_MIN <= x <= LONG_MAX ==> r as int == x
  {
    if x > LONG_MAX then (x - TWO_64) as int64
    else if x < LONG_MIN then (x + TWO_64) as int64
    else x as int64
  }

  /** Java's `a - b` on longs. */
  function Sub(a: int64, b: int64): int64 {
    Wrap(a as int - b as int)
  }

  /** Java's `a + b` on longs. */
  function Add(a: int64, b: int64): int64 {
    Wrap(a as int + b as int)
  }

  /** Adding back what was subtracted gives the original long, overflow or
      not: the energy split holds in long arithmetic for every limit and
      every amount used. */
  lemma AddSub(a: int64, b: int64)
    ensures Add(b, Sub(a, b)) == a
  {
    var d := a as int - b as int;
    if d > LONG_MAX {
      assert Sub(a, b) as int == d - TWO_64;
    } else if d < LONG_MIN {
      assert Sub(a, b) as int == d + TWO_64;
    } else {
      assert Sub(a, b) as int == d;
    }
  }

  /** When the amount used does not exceed the limit and neither is
      negative, the remaining energy is the plain difference, and it is not
      negative. */
  lemma SubInRange(limit: int64, used: int64)
    requires 0 <= used <= limit
    ensures Sub(limit, used) as int == limit as int - used as int
    ensures 0 <= Sub(limit, used) <= limit
  {
  }

  // ---- result codes

  /** The three kinds of outcome a code belongs to. */
  datatype CodeType = SuccessType | RejectedType | FailedType

  /** The result codes, in declaration order. Rejected transactions are kept
      off the chain; failed ones are included and charged energy. */
  datatype Code =
    | Success
    | Rejected
    | RejectedInsufficientBalance
    | RejectedInvalidNonce
    | Failed
    | FailedInvalidData
    | FailedOutOfEnergy
    | FailedOutOfStack
    | FailedCallDepthLimitExceeded
    | FailedRevert
    | FailedInvalid
    | FailedException
    | FailedRejected
    | FailedAbort
  {
    function Type(): CodeType {
      match this
      case Success => SuccessType
      case Rejected | RejectedInsufficientBalance | RejectedInvalidNonce => RejectedType
      case _ => FailedType
    }

    predicate IsSuccess() {
      Type() == SuccessType
    }

    predicate IsRejected() {
      Type() == RejectedType
    }

    predicate IsFailed() {
      Type() == FailedType
    }

    /** No code is treated as a REVERT. */
    predicate IsRevert()
      ensures !IsRevert()
    {
      false
    }

    /** No code is fatal. */
    predicate IsFatal()
      ensures !IsFatal()
    {
      false
    }

    /** The code's integer id. */
    function ToInt(): (r: int)
      ensures 200 <= r <= 213
    {
      match this
      case Success => 200
      case Rejected => 201
      case RejectedInsufficientBalance => 202
      case RejectedInvalidNonce => 203
      case Failed => 204
      case FailedInvalidData => 205
      case FailedOutOfEnergy => 206
      case FailedOutOfStack => 207
      case FailedCallDepthLimitExceeded => 208
      case FailedRevert => 209
      case FailedInvalid => 210
      case FailedException => 211
      case FailedRejected => 212
      case FailedAbort => 213
    }
  }

  /** Every code, in declaration order. */
  const ALL_CODES: seq<Code> := [
    Success, Rejected, RejectedInsufficientBalance, RejectedInvalidNonce,
    Failed, FailedInvalidData, FailedOutOfEnergy, FailedOutOfStack,
    FailedCallDepthLimitExceeded, FailedRevert, FailedInvalid,
    FailedException, FailedRejected, FailedAbort]

  /** Each code is of exactly one kind. */
  lemma ExactlyOneKind(c: Code)
    ensures c.IsSuccess() || c.IsRejected() || c.IsFailed()
    ensures !(c.IsSuccess() && c.IsRejected()) && !(c.IsSuccess() && c.IsFailed())
    ensures !(c.IsRejected() && c.IsFailed())
  {
  }

  /** The kind of a code can be read off its id: 200 is success, 201 to 203
      rejections, 204 to 213 failures. */
  lemma KindByValue(c: Code)
    ensures c.IsSuccess() <==> c.ToInt() == 200
    ensures c.IsRejected() <==> 201 <= c.ToInt() <= 203
    ensures c.IsFailed() <==> 204 <= c.ToInt() <= 213
  {
  }

  /** Different codes have different ids. */
  lemma ToIntInjective(a: Code, b: Code)
    ensures a.ToInt() == b.ToInt() ==> a == b
  {
  }

  /** The ids run from 200 up in declaration order, and every code is
      listed exactly once. */
  lemma AllCodesNumbered()
    ensures |ALL_CODES| == 14
    ensures forall i :: 0 <= i < |ALL_CODES| ==> ALL_CODES[i].ToInt() == 200 + i
    ensures forall c: Code :: c in ALL_CODES
  {
    forall c: Code ensures c in ALL_CODES {
      var i := c.ToInt() - 200;
      ToIntInjective(ALL_CODES[i], c);
    }
  }

  // ---- the result record

  /** An exception object that reached the runtime uncaught. */
  type Throwable(==)

  /** The transactional kernel that execution produced. */
  type KernelInterface(==)

  class AvmTransactionResult {
    /** Fixed at construction. */
    const energyLimit: int64
    var uncaughtException: Option<Throwable>
    var resultCode: Code
    var returnData: Option<seq<byte>>
    var energyUsed: int64
    var energyRemaining: int64
    var kernel: Option<KernelInterface>

    /** The energy used and the energy remaining add up to the limit, in long
        arithmetic. */
    ghost predicate Valid()
      reads this
    {
      Add(energyUsed, energyRemaining) == energyLimit
    }

    /** A successful result with the given limit and amount used; every
        reference field starts null. */
    constructor (energyLimit: int64, energyUsed: int64)
      ensures Valid()
      ensures this.energyLimit == energyLimit && this.energyUsed == energyUsed
      ensures energyRemaining == Sub(energyLimit, energyUsed)
      ensures resultCode == Success
      ensures returnData == None && uncaughtException == None && kernel == None
    {
      this.resultCode := Success;
      this.energyLimit := energyLimit;
      this.energyUsed := energyUsed;
      this.energyRemaining := Sub(energyLimit, energyUsed);
      this.returnData := None;
      this.uncaughtException := None;
      this.kernel := None;
      AddSub(energyLimit, energyUsed);
    }

    method GetResultCode() returns (code: Code)
      ensures code == resultCode
    {
      code := resultCode;
    }

    method SetResultCode(code: Code)
      requires Valid()
      modifies this`resultCode
      ensures Valid() && resultCode == code
    {
      resultCode := code;
    }

    method GetReturnData() returns (data: Option<seq<byte>>)
      ensures data == returnData
    {
      data := returnData;
    }

    method SetReturnData(data: Option<seq<byte>>)
      requires Valid()
      modifies this`returnData
      ensures Valid() && returnData == data
    {
      returnData := data;
    }

    /** The energy left, which with the energy used makes up the limit. */
    method GetEnergyRemaining() returns (remaining: int64)
      requires Valid()
      ensures remaining == energyRemaining
      ensures Add(energyUsed, remaining) == energyLimit
    {
      remaining := energyRemaining;
    }

    /** The remaining energy is only ever derived from the energy used: this
        setter always fails and changes nothing. */
    method SetEnergyRemaining(remaining: int64) returns (outcome: Outcome)
      ensures outcome == Fail(Unsupported)
    {
      outcome := Fail(Unsupported);
    }

    method GetEnergyUsed() returns (used: int64)
      requires Valid()
      ensures used == energyUsed
      ensures Add(used, energyRemaining) == energyLimit
    {
      used := energyUsed;
    }

    /** Sets the energy used and derives the energy remaining from it, so
        that the two again make up the unchanged limit. */
    method SetEnergyUsed(used: int64)
      requires Valid()
      modifies this`energyUsed, this`energyRemaining
      ensures Valid()
      ensures energyUsed == used && energyRemaining == Sub(energyLimit, used)
    {
      energyUsed := used;
      energyRemaining := Sub(energyLimit, energyUsed);
      AddSub(energyLimit, used);
    }

    method GetUncaughtException() returns (e: Option<Throwable>)
      ensures e == uncaughtException
    {
      e := uncaughtException;
    }

    method SetUncaughtException(e: Option<Throwable>)
      requires Valid()
      modifies this`uncaughtException
      ensures Valid() && uncaughtException == e
    {
      uncaughtException := e;
    }

    method SetKernelInterface(k: Option<KernelInterface>)
      requires Valid()
      modifies this`kernel
      ensures Valid() && kernel == k
    {
      kernel := k;
    }

    method GetKernelInterface() returns (k: Option<KernelInterface>)
      ensures k == kernel
    {
      k := kernel;
    }

    /** A result has no byte serialisation: this always fails. */
    method ToBytes() returns (r: Result<seq<byte>>)
      ensures r == Err(Unsupported)
    {
      r := Err(Unsupported);
    }
  }
}

/** Shared value types: optional values, outcomes that may carry a Java
    exception, and bytes. */
module Base {

  /** An 8-bit value as the runtime stores it in a byte array (0..255). */
  newtype byte = x: int | 0 <= x < 256

  /** A Java reference that may be null. */
  datatype Option<+T> = None | Some(value: T)

  /** The exceptions the modelled Java code can raise. */
  datatype Error =
    | InvalidTxData       // org.aion.avm.internal.InvalidTxDataException
    | IndexOutOfBounds    // StringIndexOutOfBounds- or ArrayIndexOutOfBoundsException
    | NegativeArraySize   // NegativeArraySizeException
    | NullDereference     // NullPointerException
    | Unsupported         // RuntimeAssertionError.unimplemented or AssertionError
    | TypeFailure         // whatever the elementary type's own decoder throws

  /** A value, or the exception that was raised instead. */
  datatype Result<+T> = Ok(value: T) | Err(error: Error) {
    predicate IsFailure() { Err? }

    function PropagateFailure<U>(): Result<U>
      requires Err?
    {
      Err(error)
    }

    function Extract(): T
      requires Ok?
    {
      value
    }
  }

  /** A call that returns nothing, or the exception it raised. */
  datatype Outcome = Pass | Fail(error: Error)

  /** The one-byte-per-character view of a byte array (`new String(bytes)`
      restricted to single-byte characters). */
  function AsString(bytes: seq<byte>): (s: string)
    ensures |s| == |bytes|
    ensures forall i :: 0 <= i < |bytes| ==> s[i] as int == bytes[i] as int
  {
    seq(|bytes|, i requires 0 <= i < |bytes| => bytes[i] as int as char)
  }

  lemma AsStringAppend(a: seq<byte>, b: seq<byte>)
    ensures AsString(a + b) == AsString(a) + AsString(b)
  {
    assert forall i :: 0 <= i < |a + b| ==> AsString(a + b)[i] == (AsString(a) + AsString(b))[i];
  }

  lemma AsStringSlice(a: seq<byte>, k: nat)
    requires k <= |a|
    ensures AsString(a[k..]) == AsString(a)[k..]
  {
    assert forall i :: 0 <= i < |a| - k ==> AsString(a[k..])[i] == AsString(a)[k..][i];
  }
}

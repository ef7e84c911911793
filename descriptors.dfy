/** The argument-descriptor grammar of ABIDecoder: one shape per argument,
      scalar      T
      1-D array   [Tn]
      2-D array   [[Tm]n]          (rectangular, m != 0)
                  [[T]n](k1)...(kn) (jagged)
    read from a string with Java's indexOf/substring arithmetic. */
module Descriptors {
  import opened Base
  import opened JavaStrings
  import opened ABITypes

  const ARRAY_S: char := '['
  const ARRAY_E: char := ']'
  const JAGGED_D_S: char := '('
  const JAGGED_D_E: char := ')'

  datatype Shape = Scalar | Array1D(size: int) | Array2D(rowSizes: seq<int>)

  /** One parsed argument descriptor; encodedBytes counts descriptor text,
      never data. */
  datatype Descriptor = Descriptor(tag: Tag, shape: Shape, encodedBytes: int) {
    function Dimension(): int {
      match shape
      case Scalar => 0
      case Array1D(_) => 1
      case Array2D(_) => 2
    }

    /** The `size` field: left at Java's default 0 for a scalar. */
    function Size(): int {
      match shape
      case Scalar => 0
      case Array1D(n) => n
      case Array2D(rows) => |rows|
    }
  }

  /** readNumberFromDescriptor's int[2]: the number and the stop index. */
  datatype Number = Number(value: int, stopIdx: nat)

  /** readNumberFromDescriptor: the integer written between `startIdx` and the
      next `stopChar`; an empty number reads as 0. */
  function ReadNumberFromDescriptor(s: string, stopChar: char, startIdx: nat): (r: Result<Number>)
    ensures r.Err? ==> r.error == InvalidTxData
    ensures r.Ok? ==> startIdx <= r.value.stopIdx < |s| && s[r.value.stopIdx] == stopChar
  {
    var idxE := IndexOf(s, stopChar, startIdx);
    if idxE == -1 then Err(InvalidTxData)
    else
      var text := s[startIdx..idxE];
      if |text| == 0 then Ok(Number(0, idxE))
      else match ParseInt(text)
        case None => Err(InvalidTxData)
        case Some(v) => Ok(Number(v, idxE))
  }

  /** readNumberFromDescriptor fails exactly when no stop character follows
      `startIdx` or the text before the first one is neither empty nor an
      int; otherwise it answers the first stop index and the number before
      it, 0 when that text is empty. */
  lemma ReadNumberCharacterized(s: string, stopChar: char, startIdx: nat)
    ensures var r := ReadNumberFromDescriptor(s, stopChar, startIdx);
      && (r.Err? <==>
          (forall k :: startIdx <= k < |s| ==> s[k] != stopChar) ||
          (var j := IndexOf(s, stopChar, startIdx); j > startIdx && ParseInt(s[startIdx..j]).None?))
      && (r.Ok? ==>
          && (forall k :: startIdx <= k < r.value.stopIdx ==> s[k] != stopChar)
          && r.value.value == (if r.value.stopIdx == startIdx then 0
                               else ParseInt(s[startIdx..r.value.stopIdx]).value))
  {
    IndexOfFirst(s, stopChar, startIdx);
  }

  /** The row sizes of a jagged descriptor read so far, and the index of the
      last ')' read. */
  datatype Rows = Rows(sizes: seq<int>, lastIdx: nat)

  /** The first `k` jagged row sizes: each is read from two characters past
      the previous stop index (skipping the '('), starting from `base`, the
      index of the ']' closing the row count. */
  function RowsFrom(s: string, k: nat, base: nat): (r: Result<Rows>)
    ensures r.Err? ==> r.error == InvalidTxData
    ensures r.Ok? ==> |r.value.sizes| == k && base <= r.value.lastIdx
    ensures r.Ok? && k > 0 ==> r.value.lastIdx < |s| && s[r.value.lastIdx] == JAGGED_D_E
  {
    if k == 0 then Ok(Rows([], base))
    else
      var prev :- RowsFrom(s, k - 1, base);
      var num :- ReadNumberFromDescriptor(s, JAGGED_D_E, prev.lastIdx + 2);
      Ok(Rows(prev.sizes + [num.value], num.stopIdx))
  }

  /** The jagged branch: the first row size is read before `rowSizes[0]` is
      stored, which fails on an array of zero rows. */
  function JaggedRows(s: string, n: nat, base: nat): (r: Result<Rows>)
    ensures r.Ok? ==> n > 0 && |r.value.sizes| == n && base < r.value.lastIdx < |s|
  {
    if n == 0 then
      var first :- ReadNumberFromDescriptor(s, JAGGED_D_E, base + 2);
      Err(IndexOutOfBounds)
    else RowsFrom(s, n, base)
  }

  /** readOneDescriptor applied to the descriptor text from its start index
      on. */
  function ParseDescriptor(reg: Registry, s: string): (r: Result<Descriptor>)
    ensures r.Ok? ==> 1 <= r.value.encodedBytes <= |s|
  {
    if StartsWith(s, "[[") then Parse2D(reg, s)
    else if StartsWith(s, "[") then
      var num :- ReadNumberFromDescriptor(s, ARRAY_E, 2);
      Ok(Descriptor(reg.mapTag(s[1]), Array1D(num.value), num.stopIdx + 1))
    else if |s| == 0 then Err(IndexOutOfBounds)
    else Ok(Descriptor(reg.mapTag(s[0]), Scalar, 1))
  }

  /** `n` copies of `v`: the row sizes of a rectangular 2-D array. */
  function Repeat(v: int, n: nat): (r: seq<int>)
    ensures |r| == n && forall i :: 0 <= i < n ==> r[i] == v
  {
    seq(n, _ => v)
  }

  /** The "[[" branch of readOneDescriptor: m is read from index 3 (after the
      type character), n after the first ']'; m == 0 (or empty) selects the
      jagged form. */
  function Parse2D(reg: Registry, s: string): (r: Result<Descriptor>)
    requires StartsWith(s, "[[")
    ensures r.Ok? ==> 1 <= r.value.encodedBytes <= |s| && r.value.shape.Array2D?
  {
    var m :- ReadNumberFromDescriptor(s, ARRAY_E, 3);
    var n :- ReadNumberFromDescriptor(s, ARRAY_E, m.stopIdx + 1);
    if n.value < 0 then Err(NegativeArraySize)
    else if m.value == 0 then
      var rows :- JaggedRows(s, n.value, n.stopIdx);
      Ok(Descriptor(reg.mapTag(s[2]), Array2D(rows.sizes), rows.lastIdx + 1))
    else
      Ok(Descriptor(reg.mapTag(s[2]), Array2D(Repeat(m.value, n.value)), n.stopIdx + 1))
  }

  /** The loop of decodeArgumentsWithDescriptor that reads descriptors from
      `pos` until the text is used up. */
  function ReadDescriptors(reg: Registry, s: string, pos: nat): (r: Result<seq<Descriptor>>)
    decreases |s| - pos
  {
    if pos >= |s| then Ok([])
    else
      var d :- ParseDescriptor(reg, s[pos..]);
      var rest :- ReadDescriptors(reg, s, pos + d.encodedBytes);
      Ok([d] + rest)
  }

  // ---- the branches of readOneDescriptor, one at a time

  /** "[Tn]": the size is read from index 2 up to the first ']'. */
  lemma Parse1DStep(reg: Registry, s: string, n: int, nStop: nat)
    requires StartsWith(s, "[") && !StartsWith(s, "[[")
    requires ReadNumberFromDescriptor(s, ARRAY_E, 2) == Ok(Number(n, nStop))
    ensures ParseDescriptor(reg, s) == Ok(Descriptor(reg.mapTag(s[1]), Array1D(n), nStop + 1))
  {
  }

  /** "[[Tm]n]" with m != 0: n rows of m elements. */
  lemma ParseRectangularStep(reg: Registry, s: string, m: int, mStop: nat, n: int, nStop: nat)
    requires StartsWith(s, "[[") && m != 0 && n >= 0
    requires ReadNumberFromDescriptor(s, ARRAY_E, 3) == Ok(Number(m, mStop))
    requires ReadNumberFromDescriptor(s, ARRAY_E, mStop + 1) == Ok(Number(n, nStop))
    ensures ParseDescriptor(reg, s)
         == Ok(Descriptor(reg.mapTag(s[2]), Array2D(Repeat(m, n)), nStop + 1))
  {
  }

  /** "[[T]n](k1)...(kn)": the row sizes come from the groups after the
      second ']'. */
  lemma ParseJaggedStep(reg: Registry, s: string, mStop: nat, nStart: nat, n: nat, nStop: nat, rows: seq<int>, last: nat)
    requires StartsWith(s, "[[") && nStart == mStop + 1
    requires ReadNumberFromDescriptor(s, ARRAY_E, 3) == Ok(Number(0, mStop))
    requires ReadNumberFromDescriptor(s, ARRAY_E, nStart) == Ok(Number(n, nStop))
    requires JaggedRows(s, n, nStop) == Ok(Rows(rows, last))
    ensures ParseDescriptor(reg, s) == Ok(Descriptor(reg.mapTag(s[2]), Array2D(rows), last + 1))
  {
  }

  /** One round of the descriptor loop. */
  lemma ReadDescriptorsStep(reg: Registry, s: string, pos: nat, next: nat, d: Descriptor, rest: seq<Descriptor>)
    requires pos < |s| && ParseDescriptor(reg, s[pos..]) == Ok(d)
    requires next == pos + d.encodedBytes
    requires ReadDescriptors(reg, s, next) == Ok(rest)
    ensures ReadDescriptors(reg, s, pos) == Ok([d] + rest)
  {
  }

  /** Descriptor text consumed by a list of descriptors. */
  function TotalBytes(ds: seq<Descriptor>): int {
    if ds == [] then 0 else ds[0].encodedBytes + TotalBytes(ds[1..])
  }

  /** The descriptors the loop reads tile the rest of the text exactly: each
      takes at least one character and the last one ends at the end. */
  lemma {:induction false} ReadDescriptorsTile(reg: Registry, s: string, pos: nat, ds: seq<Descriptor>)
    requires pos <= |s| && ReadDescriptors(reg, s, pos) == Ok(ds)
    ensures pos + TotalBytes(ds) == |s|
    ensures |ds| <= |s| - pos
    decreases |s| - pos
  {
    if pos < |s| {
      var d := ParseDescriptor(reg, s[pos..]).value;
      var next := pos + d.encodedBytes;
      var rest := ReadDescriptors(reg, s, next).value;
      ReadDescriptorsTile(reg, s, next, rest);
      assert ds == [d] + rest;
      assert ds[1..] == rest;
    }
  }

  /** readOneDescriptor. */
  method ReadOneDescriptor(reg: Registry, data: string, start: nat) returns (r: Result<Descriptor>)
    requires start <= |data|
    ensures r == ParseDescriptor(reg, data[start..])
  {
    var decoded := data[start..];
    if StartsWith(decoded, "[[") {
      // 2D array
      r := Read2DDescriptor(reg, decoded);
    } else if StartsWith(decoded, "[") {
      // 1D array
      var readNum :- ReadNumberFromDescriptor(decoded, ARRAY_E, 2);
      return Ok(Descriptor(reg.mapTag(decoded[1]), Array1D(readNum.value), readNum.stopIdx + 1));
    } else {
      if |decoded| == 0 {
        return Err(IndexOutOfBounds);
      }
      return Ok(Descriptor(reg.mapTag(decoded[0]), Scalar, 1));
    }
  }

  /** The "[[" branch of readOneDescriptor. */
  method Read2DDescriptor(reg: Registry, decoded: string) returns (r: Result<Descriptor>)
    requires StartsWith(decoded, "[[")
    ensures r == Parse2D(reg, decoded)
  {
    var readNumM :- ReadNumberFromDescriptor(decoded, ARRAY_E, 3);
    var readNumN :- ReadNumberFromDescriptor(decoded, ARRAY_E, readNumM.stopIdx + 1);
    if readNumN.value < 0 {
      return Err(NegativeArraySize);
    }
    var rowSizes := new int[readNumN.value];
    if readNumM.value == 0 {
      // jagged array descriptor format
      var jagged := ReadJaggedRowSizes(decoded, rowSizes, readNumN.stopIdx);
      if jagged.Err? {
        return Err(jagged.error);
      }
      ghost var rows := JaggedRows(decoded, readNumN.value, readNumN.stopIdx).value;
      assert rowSizes[..] == rows.sizes && jagged.value == rows.lastIdx;
      return Ok(Descriptor(reg.mapTag(decoded[2]), Array2D(rowSizes[..]), jagged.value + 1));
    } else {
      FillRowSizes(rowSizes, readNumM.value);
      return Ok(Descriptor(reg.mapTag(decoded[2]), Array2D(rowSizes[..]), readNumN.stopIdx + 1));
    }
  }

  /** `Arrays.fill(rowSizes, m)`. */
  method FillRowSizes(rowSizes: array<int>, m: int)
    modifies rowSizes
    ensures rowSizes[..] == Repeat(m, rowSizes.Length)
  {
    forall k | 0 <= k < rowSizes.Length {
      rowSizes[k] := m;
    }
  }

  /** The jagged branch of readOneDescriptor: fills `rowSizes` with the sizes
      read from the "(k)" groups and answers the index of the last ')'. */
  method ReadJaggedRowSizes(decoded: string, rowSizes: array<int>, base: nat) returns (r: Result<nat>)
    modifies rowSizes
    ensures match JaggedRows(decoded, rowSizes.Length, base)
      case Ok(rows) => r == Ok(rows.lastIdx) && rowSizes[..] == rows.sizes
      case Err(e) => r == Err(e)
  {
    var n := rowSizes.Length;
    var first := ReadNumberFromDescriptor(decoded, JAGGED_D_E, base + 2);
    if first.Err? {
      if n > 0 {
        RowsFromFailurePersists(decoded, 1, n, base);
      }
      return Err(first.error);
    }
    var readNum := first.value;
    if n == 0 {
      return Err(IndexOutOfBounds);
    }
    rowSizes[0] := readNum.value;
    RowsFromStep(decoded, 0, 1, base, Rows([], base), readNum);
    assert rowSizes[..1] == [] + [readNum.value];
    var i := 1;
    while i < n
      invariant 1 <= i <= n
      invariant RowsFrom(decoded, i, base) == Ok(Rows(rowSizes[..i], readNum.stopIdx))
    {
      var next := ReadNumberFromDescriptor(decoded, JAGGED_D_E, readNum.stopIdx + 2);
      if next.Err? {
        RowsFromStopsAt(decoded, i, n, base, Rows(rowSizes[..i], readNum.stopIdx));
        return Err(next.error);
      }
      RowsFromStep(decoded, i, i + 1, base, Rows(rowSizes[..i], readNum.stopIdx), next.value);
      readNum := next.value;
      rowSizes[i] := readNum.value;
      assert rowSizes[..i + 1] == rowSizes[..i] + [readNum.value];
      i := i + 1;
    }
    assert rowSizes[..] == rowSizes[..n];
    return Ok(readNum.stopIdx);
  }

  lemma RowsFromStep(s: string, k: nat, k1: nat, base: nat, prev: Rows, num: Number)
    requires k1 == k + 1 && RowsFrom(s, k, base) == Ok(prev)
    requires ReadNumberFromDescriptor(s, JAGGED_D_E, prev.lastIdx + 2) == Ok(num)
    ensures RowsFrom(s, k1, base) == Ok(Rows(prev.sizes + [num.value], num.stopIdx))
  {
  }

  lemma RowsFromStepFails(s: string, k: nat, base: nat, prev: Rows)
    requires RowsFrom(s, k, base) == Ok(prev)
    requires ReadNumberFromDescriptor(s, JAGGED_D_E, prev.lastIdx + 2).Err?
    ensures RowsFrom(s, k + 1, base).Err?
  {
  }

  /** Once a row size fails to read, reading more rows fails the same way. */
  lemma {:induction false} RowsFromFailurePersists(s: string, k: nat, n: nat, base: nat)
    requires k <= n
    requires RowsFrom(s, k, base).Err?
    ensures RowsFrom(s, n, base) == Err(RowsFrom(s, k, base).error)
    decreases n - k
  {
    if k < n {
      RowsFromFailurePersists(s, k, n - 1, base);
    }
  }

  /** A row size that fails to read ends the whole jagged descriptor. */
  lemma RowsFromStopsAt(s: string, k: nat, n: nat, base: nat, prev: Rows)
    requires k < n && RowsFrom(s, k, base) == Ok(prev)
    requires ReadNumberFromDescriptor(s, JAGGED_D_E, prev.lastIdx + 2).Err?
    ensures RowsFrom(s, n, base) == Err(ReadNumberFromDescriptor(s, JAGGED_D_E, prev.lastIdx + 2).error)
  {
    RowsFromStepFails(s, k, base, prev);
    RowsFromFailurePersists(s, k + 1, n, base);
  }
}

/** Decoding the argument values a descriptor list announces, and the
    transaction payload "name<descriptors>data" itself (ABIDecoder.decode,
    decodeArgumentsWithDescriptor, decodeOneObject and their helpers). */
module Payload {
  import opened Base
  import opened JavaStrings
  import opened ABITypes
  import opened Descriptors
  import opened DescriptorText

  // ---- what the decoders compute

  /** `n` elements of type `tag`, each decoded by the type itself where the
      one before it ended, with the offset after the last one. */
  function ElementsAt(reg: Registry, tag: Tag, data: seq<byte>, off: int, n: nat): (r: Result<(seq<Elem>, int)>)
    ensures r.Ok? ==> |r.value.0| == n
  {
    if n == 0 then Ok(([], off))
    else
      var prev :- ElementsAt(reg, tag, data, off, n - 1);
      var next :- reg.decodeScalar(tag, data, prev.1);
      Ok((prev.0 + [next.0], next.1))
  }

  /** One array row: allocating it fails first when its announced size is
      negative. */
  function RowAt(reg: Registry, tag: Tag, data: seq<byte>, off: int, size: int): (r: Result<(seq<Elem>, int)>)
    ensures r.Ok? ==> size >= 0 && |r.value.0| == size
    ensures size < 0 ==> r == Err(NegativeArraySize)
  {
    if size < 0 then Err(NegativeArraySize) else ElementsAt(reg, tag, data, off, size)
  }

  /** The rows of a 2-D array, one after the other. */
  function RowsAt(reg: Registry, tag: Tag, data: seq<byte>, off: int, sizes: seq<int>): (r: Result<(seq<seq<Elem>>, int)>)
    ensures r.Ok? ==> |r.value.0| == |sizes|
    ensures r.Ok? ==> forall i :: 0 <= i < |sizes| ==> |r.value.0[i]| == sizes[i]
  {
    if sizes == [] then Ok(([], off))
    else
      var prev :- RowsAt(reg, tag, data, off, sizes[..|sizes| - 1]);
      var row :- RowAt(reg, tag, data, prev.1, sizes[|sizes| - 1]);
      assert forall i :: 0 <= i < |sizes| - 1 ==> (prev.0 + [row.0])[i] == prev.0[i];
      Ok((prev.0 + [row.0], row.1))
  }

  /** The value one descriptor announces, decoded from offset `off`. */
  function ObjectAt(reg: Registry, data: seq<byte>, off: int, d: Descriptor): (r: Result<Decoded>)
  {
    match d.shape
    case Scalar =>
      var e :- reg.decodeScalar(d.tag, data, off);
      Ok(Decoded(Element(d.tag, e.0), e.1))
    case Array1D(n) =>
      var xs :- RowAt(reg, d.tag, data, off, n);
      Ok(Decoded(Vector(d.tag, xs.0), xs.1))
    case Array2D(sizes) =>
      var xss :- RowsAt(reg, d.tag, data, off, sizes);
      Ok(Decoded(Matrix(d.tag, xss.0), xss.1))
  }

  /** The values of a descriptor list, each decoded where the one before it
      ended, with the offset after the last one. */
  function ValuesAt(reg: Registry, data: seq<byte>, off: int, ds: seq<Descriptor>): (r: Result<(seq<Value>, int)>)
    ensures r.Ok? ==> |r.value.0| == |ds|
  {
    if ds == [] then Ok(([], off))
    else
      var prev :- ValuesAt(reg, data, off, ds[..|ds| - 1]);
      var o :- ObjectAt(reg, data, prev.1, ds[|ds| - 1]);
      Ok((prev.0 + [o.value], o.endByte))
  }

  /** decodeArgumentsWithDescriptor: the descriptors of `desc`, then their
      values from offset 0 of `data`; no descriptor at all gives null. */
  function ArgumentsOf(reg: Registry, data: seq<byte>, desc: string): (r: Result<Option<seq<Value>>>)
  {
    var ds :- ReadDescriptors(reg, desc, 0);
    if |ds| == 0 then Ok(None)
    else
      var vs :- ValuesAt(reg, data, 0, ds);
      Ok(Some(vs.0))
  }

  /** ABIDecoder.MethodCaller. */
  datatype MethodCaller = MethodCaller(methodName: string, argsDescriptor: Option<string>, arguments: Option<seq<Value>>)

  /** decode: null or empty data gives null; no '<' and no '>' is a call
      without arguments; one marker without the other is invalid; otherwise
      the name precedes the first '<', the descriptor lies between it and the
      first '>', and the argument data follows that '>'. */
  function CallOf(reg: Registry, txData: Option<seq<byte>>): (r: Result<Option<MethodCaller>>)
  {
    if txData.None? || |txData.value| == 0 then Ok(None)
    else
      var bytes := txData.value;
      var decoded := AsString(bytes);
      var m1 := IndexOf(decoded, '<', 0);
      var m2 := IndexOf(decoded, '>', 0);
      if m1 == -1 && m2 == -1 then Ok(Some(MethodCaller(decoded, None, None)))
      else if m1 == -1 || m2 == -1 then Err(InvalidTxData)
      else if m1 + 1 > m2 then Err(IndexOutOfBounds)
      else
        var args :- ArgumentsOf(reg, bytes[m2 + 1..], decoded[m1 + 1..m2]);
        Ok(Some(MethodCaller(decoded[..m1], Some(decoded[m1 + 1..m2]), args)))
  }

  /** decodeOneObject: one descriptor at the head of the data, then its value
      from the byte just after the descriptor. */
  function OneObjectOf(reg: Registry, data: seq<byte>): (r: Result<Value>)
  {
    var d :- ParseDescriptor(reg, AsString(data));
    var o :- ObjectAt(reg, data, d.encodedBytes, d);
    Ok(o.value)
  }

  /** decodeArguments: the arguments of decode's result, which it
      dereferences even when decode answered null. */
  function ArgumentsFrom(reg: Registry, txData: Option<seq<byte>>): (r: Result<Option<seq<Value>>>)
    ensures (txData.None? || |txData.value| == 0) ==> r == Err(NullDereference)
    ensures r.Ok? ==> CallOf(reg, txData).Ok? && CallOf(reg, txData).value.Some?
                      && r.value == CallOf(reg, txData).value.value.arguments
  {
    var caller :- CallOf(reg, txData);
    if caller.None? then Err(NullDereference) else Ok(caller.value.arguments)
  }

  /** The descriptors `ds` followed by whatever the rest of the loop reads. */
  function Prepend(ds: seq<Descriptor>, r: Result<seq<Descriptor>>): Result<seq<Descriptor>>
  {
    match r
    case Ok(rest) => Ok(ds + rest)
    case Err(e) => Err(e)
  }

  // ---- the decoders as the runtime runs them

  /** decodeOneObjectWithDescriptor: dimension 0 is left to the type's own
      decoder, dimensions 1 and 2 to the array decoders. */
  method DecodeOneObjectWithDescriptor(reg: Registry, data: seq<byte>, startByteOfData: int, descriptor: Descriptor)
    returns (r: Result<Decoded>)
    ensures r == ObjectAt(reg, data, startByteOfData, descriptor)
    decreases descriptor.Dimension(), 1
  {
    if descriptor.Dimension() == 0 {
      var e := reg.decodeScalar(descriptor.tag, data, startByteOfData);
      if e.Err? {
        return Err(e.error);
      }
      return Ok(Decoded(Element(descriptor.tag, e.value.0), e.value.1));
    } else if descriptor.Dimension() == 1 {
      r := Decode1DArray(reg, data, startByteOfData, descriptor);
    } else {
      r := Decode2DArray(reg, data, startByteOfData, descriptor);
    }
  }

  /** decode1DArray: allocate the array (a negative size fails there), then
      decode its elements one after the other. */
  method Decode1DArray(reg: Registry, data: seq<byte>, startByteOfData: int, descriptor: Descriptor)
    returns (r: Result<Decoded>)
    requires descriptor.shape.Array1D?
    ensures r == ObjectAt(reg, data, startByteOfData, descriptor)
    decreases 1, 0
  {
    var size := descriptor.shape.size;
    var endByte := startByteOfData;
    if size < 0 {
      return Err(NegativeArraySize);
    }
    var buffer := new Elem[size];
    var componentDescriptor := Descriptor(descriptor.tag, Scalar, 1);
    for idx := 0 to size
      invariant ElementsAt(reg, descriptor.tag, data, startByteOfData, idx) == Ok((buffer[..idx], endByte))
    {
      var info := DecodeOneObjectWithDescriptor(reg, data, endByte, componentDescriptor);
      if info.Err? {
        ElementsFailurePersists(reg, descriptor.tag, data, startByteOfData, idx + 1, size);
        return Err(info.error);
      }
      ghost var before := buffer[..idx];
      buffer[idx] := info.value.value.elem;
      assert buffer[..idx + 1] == before + [info.value.value.elem];
      endByte := info.value.endByte;
    }
    assert buffer[..size] == buffer[..];
    return Ok(Decoded(Vector(descriptor.tag, buffer[..]), endByte));
  }

  /** decode2DArray: each row is decoded as a 1-D buffer of its own size,
      starting where the previous row ended. */
  method Decode2DArray(reg: Registry, data: seq<byte>, startByteOfData: int, descriptor: Descriptor)
    returns (r: Result<Decoded>)
    requires descriptor.shape.Array2D?
    ensures r == ObjectAt(reg, data, startByteOfData, descriptor)
    decreases 2, 0
  {
    var rowSizes := descriptor.shape.rowSizes;
    var endByte := startByteOfData;
    var buffer := new seq<Elem>[|rowSizes|];
    for idx := 0 to |rowSizes|
      invariant RowsAt(reg, descriptor.tag, data, startByteOfData, rowSizes[..idx]) == Ok((buffer[..idx], endByte))
    {
      var rowDescriptor := Descriptor(descriptor.tag, Array1D(rowSizes[idx]), 0);
      var info := Decode1DArray(reg, data, endByte, rowDescriptor);
      assert rowSizes[..idx + 1][..idx] == rowSizes[..idx];
      if info.Err? {
        RowsFailurePersists(reg, descriptor.tag, data, startByteOfData, rowSizes, idx + 1);
        return Err(info.error);
      }
      ghost var before := buffer[..idx];
      buffer[idx] := info.value.value.elems;
      assert buffer[..idx + 1] == before + [info.value.value.elems];
      endByte := info.value.endByte;
    }
    assert rowSizes[..|rowSizes|] == rowSizes;
    assert buffer[..|rowSizes|] == buffer[..];
    return Ok(Decoded(Matrix(descriptor.tag, buffer[..]), endByte));
  }

  /** decodeArgumentsWithDescriptor: read descriptors until the descriptor
      text is used up, then decode one value per descriptor, threading the
      data offset. */
  method DecodeArgumentsWithDescriptor(reg: Registry, data: seq<byte>, argsDescriptor: string)
    returns (r: Result<Option<seq<Value>>>)
    ensures r == ArgumentsOf(reg, data, argsDescriptor)
  {
    var encodedBytes := 0;
    var descriptorList: seq<Descriptor> := [];
    PrependNothing(ReadDescriptors(reg, argsDescriptor, 0));
    while encodedBytes < |argsDescriptor|
      invariant encodedBytes <= |argsDescriptor|
      invariant ReadDescriptors(reg, argsDescriptor, 0) == Prepend(descriptorList, ReadDescriptors(reg, argsDescriptor, encodedBytes))
      decreases |argsDescriptor| - encodedBytes
    {
      var descriptor := ReadOneDescriptor(reg, argsDescriptor, encodedBytes);
      if descriptor.Err? {
        return Err(descriptor.error);
      }
      var next := encodedBytes + descriptor.value.encodedBytes;
      ReadDescriptorsUnfold(reg, argsDescriptor, encodedBytes, next, descriptor.value);
      PrependPrepend(descriptorList, [descriptor.value], ReadDescriptors(reg, argsDescriptor, next));
      descriptorList := descriptorList + [descriptor.value];
      encodedBytes := next;
    }
    assert descriptorList + [] == descriptorList;
    if |descriptorList| == 0 {
      return Ok(None);
    }
    var args: seq<Value> := [];
    var bytes := 0;
    for argIndex := 0 to |descriptorList|
      invariant ValuesAt(reg, data, 0, descriptorList[..argIndex]) == Ok((args, bytes))
    {
      var info := DecodeOneObjectWithDescriptor(reg, data, bytes, descriptorList[argIndex]);
      assert descriptorList[..argIndex + 1][..argIndex] == descriptorList[..argIndex];
      if info.Err? {
        ValuesFailurePersists(reg, data, 0, descriptorList, argIndex + 1);
        return Err(info.error);
      }
      args := args + [info.value.value];
      bytes := info.value.endByte;
    }
    assert descriptorList[..|descriptorList|] == descriptorList;
    return Ok(Some(args));
  }

  /** decode. */
  method Decode(reg: Registry, txData: Option<seq<byte>>) returns (r: Result<Option<MethodCaller>>)
    ensures r == CallOf(reg, txData)
  {
    if txData.None? || |txData.value| == 0 {
      return Ok(None);
    }
    var decoded := AsString(txData.value);
    var m1 := IndexOf(decoded, '<', 0);
    var m2 := IndexOf(decoded, '>', 0);
    if m1 == -1 && m2 == -1 {
      return Ok(Some(MethodCaller(decoded, None, None)));
    }
    if m1 == -1 || m2 == -1 {
      return Err(InvalidTxData);
    }
    var methodName := decoded[..m1];
    if m1 + 1 > m2 {
      return Err(IndexOutOfBounds);
    }
    var argsDescriptor := decoded[m1 + 1..m2];
    var startByteOfData := m2 + 1;
    CallOfIndices(reg, txData.value, m1, m2);
    var arguments := DecodeArgumentsWithDescriptor(reg, txData.value[startByteOfData..], argsDescriptor);
    if arguments.Err? {
      return Err(arguments.error);
    }
    return Ok(Some(MethodCaller(methodName, Some(argsDescriptor), arguments.value)));
  }

  /** decodeOneObject. */
  method DecodeOneObject(reg: Registry, data: seq<byte>) returns (r: Result<Value>)
    ensures r == OneObjectOf(reg, data)
  {
    var decoded := AsString(data);
    assert decoded[0..] == decoded;
    var descriptor := ReadOneDescriptor(reg, decoded, 0);
    if descriptor.Err? {
      return Err(descriptor.error);
    }
    var info := DecodeOneObjectWithDescriptor(reg, data, descriptor.value.encodedBytes, descriptor.value);
    if info.Err? {
      return Err(info.error);
    }
    return Ok(info.value.value);
  }

  // ---- loop bookkeeping

  /** decode once both markers are found in order. */
  lemma CallOfIndices(reg: Registry, bytes: seq<byte>, m1: int, m2: int)
    requires |bytes| > 0
    requires m1 == IndexOf(AsString(bytes), '<', 0) && m2 == IndexOf(AsString(bytes), '>', 0)
    requires 0 <= m1 && m1 + 1 <= m2
    ensures CallOf(reg, Some(bytes)) ==
      var args :- ArgumentsOf(reg, bytes[m2 + 1..], AsString(bytes)[m1 + 1..m2]);
      Ok(Some(MethodCaller(AsString(bytes)[..m1], Some(AsString(bytes)[m1 + 1..m2]), args)))
  {
  }

  /** Once an element fails to decode, the whole buffer fails the same way. */
  lemma {:induction false} ElementsFailurePersists(reg: Registry, tag: Tag, data: seq<byte>, off: int, k: nat, n: nat)
    requires k <= n && ElementsAt(reg, tag, data, off, k).Err?
    ensures ElementsAt(reg, tag, data, off, n) == ElementsAt(reg, tag, data, off, k)
    decreases n
  {
    if k < n {
      ElementsFailurePersists(reg, tag, data, off, k, n - 1);
    }
  }

  lemma {:induction false} RowsFailurePersists(reg: Registry, tag: Tag, data: seq<byte>, off: int, sizes: seq<int>, k: nat)
    requires k <= |sizes| && RowsAt(reg, tag, data, off, sizes[..k]).Err?
    ensures RowsAt(reg, tag, data, off, sizes) == RowsAt(reg, tag, data, off, sizes[..k])
    decreases |sizes|
  {
    if k < |sizes| {
      var init := sizes[..|sizes| - 1];
      assert init[..k] == sizes[..k];
      RowsFailurePersists(reg, tag, data, off, init, k);
    } else {
      assert sizes[..k] == sizes;
    }
  }

  lemma {:induction false} ValuesFailurePersists(reg: Registry, data: seq<byte>, off: int, ds: seq<Descriptor>, k: nat)
    requires k <= |ds| && ValuesAt(reg, data, off, ds[..k]).Err?
    ensures ValuesAt(reg, data, off, ds) == ValuesAt(reg, data, off, ds[..k])
    decreases |ds|
  {
    if k < |ds| {
      var init := ds[..|ds| - 1];
      assert init[..k] == ds[..k];
      ValuesFailurePersists(reg, data, off, init, k);
    } else {
      assert ds[..k] == ds;
    }
  }

  /** One turn of the descriptor loop. */
  lemma ReadDescriptorsUnfold(reg: Registry, s: string, pos: nat, next: nat, d: Descriptor)
    requires pos < |s| && ParseDescriptor(reg, s[pos..]) == Ok(d)
    requires next == pos + d.encodedBytes
    ensures ReadDescriptors(reg, s, pos) == Prepend([d], ReadDescriptors(reg, s, next))
  {
  }

  lemma PrependNothing(r: Result<seq<Descriptor>>)
    ensures Prepend([], r) == r
  {
    if r.Ok? {
      assert [] + r.value == r.value;
    }
  }

  lemma PrependPrepend(a: seq<Descriptor>, b: seq<Descriptor>, r: Result<seq<Descriptor>>)
    ensures Prepend(a, Prepend(b, r)) == Prepend(a + b, r)
  {
    if r.Ok? {
      assert a + (b + r.value) == (a + b) + r.value;
    }
  }

  // ---- arrays: the data is a plain run of elements

  /** `a` elements and then `b` more, from where the first `a` ended. */
  function ElementsThen(reg: Registry, tag: Tag, data: seq<byte>, off: int, a: nat, b: nat): Result<(seq<Elem>, int)>
  {
    var p :- ElementsAt(reg, tag, data, off, a);
    var q :- ElementsAt(reg, tag, data, p.1, b);
    Ok((p.0 + q.0, q.1))
  }

  /** Decoding `a + b` elements is decoding `a` and then `b` of them. */
  lemma {:induction false} ElementsSplit(reg: Registry, tag: Tag, data: seq<byte>, off: int, a: nat, b: nat)
    ensures ElementsAt(reg, tag, data, off, a + b) == ElementsThen(reg, tag, data, off, a, b)
    decreases b
  {
    var p := ElementsAt(reg, tag, data, off, a);
    if b == 0 {
      if p.Ok? {
        assert p.value.0 + [] == p.value.0;
      }
    } else {
      var b1 := b - 1;
      var n1 := a + b1;
      ElementsSplit(reg, tag, data, off, a, b1);
      assert n1 + 1 == a + b;
      if p.Ok? {
        var q := ElementsAt(reg, tag, data, p.value.1, b1);
        if q.Ok? {
          var next := reg.decodeScalar(tag, data, q.value.1);
          if next.Ok? {
            assert (p.value.0 + q.value.0) + [next.value.0] == p.value.0 + (q.value.0 + [next.value.0]);
          }
        }
      }
    }
  }

  function Sum(sizes: seq<int>): (total: int)
    ensures (forall i :: 0 <= i < |sizes| ==> sizes[i] >= 0) ==> total >= 0
  {
    if sizes == [] then 0 else Sum(sizes[..|sizes| - 1]) + sizes[|sizes| - 1]
  }

  function Flatten(rows: seq<seq<Elem>>): (elems: seq<Elem>)
  {
    if rows == [] then [] else Flatten(rows[..|rows| - 1]) + rows[|rows| - 1]
  }

  function Flattened(r: Result<(seq<seq<Elem>>, int)>): Result<(seq<Elem>, int)>
  {
    match r
    case Ok(p) => Ok((Flatten(p.0), p.1))
    case Err(e) => Err(e)
  }

  /** A 2-D array's data holds its elements row after row with nothing in
      between: decoding its rows reads exactly what decoding all its elements
      in one run reads, and fails exactly when that fails. */
  lemma {:induction false} RowsAsElements(reg: Registry, tag: Tag, data: seq<byte>, off: int, sizes: seq<int>)
    requires forall i :: 0 <= i < |sizes| ==> sizes[i] >= 0
    ensures ElementsAt(reg, tag, data, off, Sum(sizes)) == Flattened(RowsAt(reg, tag, data, off, sizes))
    decreases |sizes|
  {
    if sizes != [] {
      var init := sizes[..|sizes| - 1];
      var last := sizes[|sizes| - 1];
      var a := Sum(init);
      RowsAsElements(reg, tag, data, off, init);
      ElementsSplit(reg, tag, data, off, a, last);
      var p := RowsAt(reg, tag, data, off, init);
      if p.Ok? {
        var row := ElementsAt(reg, tag, data, p.value.1, last);
        if row.Ok? {
          var rows := p.value.0 + [row.value.0];
          assert rows[..|rows| - 1] == p.value.0;
        }
      }
    }
  }

  // ---- the descriptor loop and the payload header

  /** The characters that frame the descriptor in a payload. */
  predicate Unmarked(s: string) {
    forall i :: 0 <= i < |s| ==> s[i] != '<' && s[i] != '>'
  }

  lemma UnmarkedAppend(a: string, b: string)
    ensures Unmarked(a + b) <==> Unmarked(a) && Unmarked(b)
  {
    if Unmarked(a) && Unmarked(b) {
      forall i | 0 <= i < |a + b|
        ensures (a + b)[i] != '<' && (a + b)[i] != '>'
      {
        if i >= |a| {
          assert (a + b)[i] == b[i - |a|];
        }
      }
    }
    if Unmarked(a + b) {
      assert forall i :: 0 <= i < |a| ==> a[i] == (a + b)[i];
      assert forall i :: 0 <= i < |b| ==> b[i] == (a + b)[|a| + i];
    }
  }

  lemma DecimalUnmarked(n: nat)
    ensures Unmarked(Decimal(n))
  {
    DecimalDigits(n);
  }

  lemma {:induction false} RowGroupsUnmarked(rows: seq<int>)
    requires SizesOk(rows)
    ensures Unmarked(RowGroups(rows))
    decreases |rows|
  {
    if rows != [] {
      var init := rows[..|rows| - 1];
      var a := RowGroups(init);
      var d := Decimal(rows[|rows| - 1]);
      RowGroupsUnmarked(init);
      DecimalUnmarked(rows[|rows| - 1]);
      UnmarkedAppend(a, "(");
      UnmarkedAppend(a + "(", d);
      UnmarkedAppend(a + "(" + d, ")");
    }
  }

  lemma RectangularUnmarked(c: char, m: nat, n: nat)
    requires !IsMarker(c)
    ensures Unmarked(Rectangular(c, m, n))
  {
    DecimalUnmarked(m);
    DecimalUnmarked(n);
    UnmarkedAppend("[[", [c]);
    UnmarkedAppend("[[" + [c], Decimal(m));
    UnmarkedAppend("[[" + [c] + Decimal(m), "]");
    UnmarkedAppend("[[" + [c] + Decimal(m) + "]", Decimal(n));
    UnmarkedAppend("[[" + [c] + Decimal(m) + "]" + Decimal(n), "]");
  }

  lemma JaggedUnmarked(c: char, rows: seq<int>)
    requires !IsMarker(c) && SizesOk(rows)
    ensures Unmarked(Jagged(c, rows))
  {
    var n := Decimal(|rows|);
    DecimalUnmarked(|rows|);
    RowGroupsUnmarked(rows);
    UnmarkedAppend("[[", [c]);
    UnmarkedAppend("[[" + [c], "]");
    UnmarkedAppend("[[" + [c] + "]", n);
    UnmarkedAppend("[[" + [c] + "]" + n, "]");
    UnmarkedAppend("[[" + [c] + "]" + n + "]", RowGroups(rows));
  }

  /** Descriptor text never contains the characters that frame it. */
  lemma RenderUnmarked(t: Token)
    requires WellFormed(t)
    ensures Unmarked(Render(t))
  {
    match t.shape
    case Scalar =>
    case Array1D(n) =>
      DecimalUnmarked(n);
      UnmarkedAppend("[", [t.code]);
      UnmarkedAppend("[" + [t.code], Decimal(n));
      UnmarkedAppend("[" + [t.code] + Decimal(n), "]");
    case Array2D(rows) =>
      if |rows| == 0 {
        RectangularUnmarked(t.code, 1, 0);
      } else if IsRectangular(rows) {
        RectangularUnmarked(t.code, rows[0], |rows|);
      } else {
        JaggedUnmarked(t.code, rows);
      }
  }

  lemma {:induction false} RenderAllUnmarked(ts: seq<Token>)
    requires AllWellFormed(ts)
    ensures Unmarked(RenderAll(ts))
    decreases |ts|
  {
    if ts != [] {
      RenderUnmarked(ts[0]);
      RenderAllUnmarked(ts[1..]);
      UnmarkedAppend(Render(ts[0]), RenderAll(ts[1..]));
    }
  }

  lemma AsStringInjective(a: seq<byte>, b: seq<byte>)
    requires AsString(a) == AsString(b)
    ensures a == b
  {
    assert forall i :: 0 <= i < |a| ==> a[i] as int == AsString(a)[i] as int == b[i] as int;
  }

  /** Where the pieces of "name<desc>rest" sit. */
  lemma HeaderText(s: string, name: string, desc: string, rest: string)
    requires s == name + "<" + desc + ">" + rest
    ensures |s| == |name| + |desc| + 2 + |rest|
    ensures s[|name|] == '<' && s[|name| + 1 + |desc|] == '>'
    ensures s[..|name|] == name && s[|name| + 1..|name| + 1 + |desc|] == desc
    ensures s[|name| + 2 + |desc|..] == rest
    ensures forall k :: 0 <= k < |name| ==> s[k] == name[k]
    ensures forall k :: 0 <= k < |desc| ==> s[|name| + 1 + k] == desc[k]
  {
  }

  // ---- decode, case by case

  /** Null or empty data decodes to null. */
  lemma CallOfAbsent(reg: Registry)
    ensures CallOf(reg, None) == Ok(None) && CallOf(reg, Some([])) == Ok(None)
  {
  }

  /** Non-empty data is a call without arguments exactly when it contains
      neither '<' nor '>'; the whole text is then the method name. */
  lemma CallOfWithoutDescriptor(reg: Registry, bytes: seq<byte>)
    requires |bytes| > 0
    ensures CallOf(reg, Some(bytes)) == Ok(Some(MethodCaller(AsString(bytes), None, None))) <==> Unmarked(AsString(bytes))
  {
    IndexOfFirst(AsString(bytes), '<', 0);
    IndexOfFirst(AsString(bytes), '>', 0);
  }

  /** A '<' without any '>', or a '>' without any '<', is invalid data. */
  lemma CallOfUnbalanced(reg: Registry, bytes: seq<byte>)
    requires ('<' in AsString(bytes)) != ('>' in AsString(bytes))
    ensures CallOf(reg, Some(bytes)) == Err(InvalidTxData)
  {
    var s := AsString(bytes);
    IndexOfFirst(s, '<', 0);
    IndexOfFirst(s, '>', 0);
  }

  /** A '>' ahead of the first '<' makes the descriptor substring fail. */
  lemma CallOfCrossed(reg: Registry, bytes: seq<byte>, j: nat)
    requires j < |bytes| && AsString(bytes)[j] == '>'
    requires forall k :: 0 <= k <= j ==> AsString(bytes)[k] != '<'
    requires '<' in AsString(bytes)
    ensures CallOf(reg, Some(bytes)) == Err(IndexOutOfBounds)
  {
    var s := AsString(bytes);
    IndexOfFirst(s, '<', 0);
    IndexOfFirst(s, '>', 0);
  }

  /** With the first '<' at m1 and the first '>' at m2 after it, the name is
      the text before m1, the descriptor the text between the two and the
      argument data everything after m2. */
  lemma CallOfHeader(reg: Registry, bytes: seq<byte>, m1: nat, m2: nat)
    requires m1 < m2 < |bytes|
    requires AsString(bytes)[m1] == '<' && AsString(bytes)[m2] == '>'
    requires forall k :: 0 <= k < m1 ==> AsString(bytes)[k] != '<'
    requires forall k :: 0 <= k < m2 ==> AsString(bytes)[k] != '>'
    ensures CallOf(reg, Some(bytes)) ==
      var args :- ArgumentsOf(reg, bytes[m2 + 1..], AsString(bytes)[m1 + 1..m2]);
      Ok(Some(MethodCaller(AsString(bytes)[..m1], Some(AsString(bytes)[m1 + 1..m2]), args)))
  {
    IndexOfAt(AsString(bytes), '<', 0, m1);
    IndexOfAt(AsString(bytes), '>', 0, m2);
  }

  /** No '<' before m1 and no '>' before m2 in "name<desc>...". */
  lemma FramePositions(s: string, name: string, desc: string, m1: nat, m2: nat)
    requires Unmarked(name) && Unmarked(desc)
    requires m1 == |name| && m2 == m1 + 1 + |desc| && m2 < |s| && s[m1] == '<'
    requires forall k :: 0 <= k < |name| ==> s[k] == name[k]
    requires forall k :: 0 <= k < |desc| ==> s[|name| + 1 + k] == desc[k]
    ensures forall k :: 0 <= k < m1 ==> s[k] != '<'
    ensures forall k :: 0 <= k < m2 ==> s[k] != '>'
  {
    forall k | 0 <= k < m2
      ensures s[k] != '>'
    {
      if k < m1 {
        assert s[k] == name[k];
      } else if k > m1 {
        var j := k - m1 - 1;
        assert s[|name| + 1 + j] == desc[j];
      }
    }
    assert forall k :: 0 <= k < m1 ==> s[k] == name[k];
  }

  /** The header facts of "name<desc>argData", with the text kept abstract. */
  lemma CallOfFramed(reg: Registry, bytes: seq<byte>, name: string, desc: string, argData: seq<byte>, m1: nat, m2: nat)
    requires Unmarked(name) && Unmarked(desc)
    requires m1 == |name| && m2 == m1 + 1 + |desc| && m2 < |bytes|
    requires AsString(bytes)[m1] == '<' && AsString(bytes)[m2] == '>'
    requires AsString(bytes)[..m1] == name && AsString(bytes)[m1 + 1..m2] == desc
    requires forall k :: 0 <= k < |name| ==> AsString(bytes)[k] == name[k]
    requires forall k :: 0 <= k < |desc| ==> AsString(bytes)[|name| + 1 + k] == desc[k]
    requires bytes[m2 + 1..] == argData
    ensures CallOf(reg, Some(bytes)) ==
      var args :- ArgumentsOf(reg, argData, desc);
      Ok(Some(MethodCaller(name, Some(desc), args)))
  {
    FramePositions(AsString(bytes), name, desc, m1, m2);
    CallOfHeader(reg, bytes, m1, m2);
  }

  /** The argument list of rendered descriptors is their values, decoded
      from the first byte of the data. */
  lemma ArgumentsRendered(reg: Registry, data: seq<byte>, ts: seq<Token>)
    requires AllWellFormed(ts) && |ts| > 0
    ensures ArgumentsOf(reg, data, RenderAll(ts)) ==
      var vs :- ValuesAt(reg, data, 0, DescriptorsOf(reg, ts));
      Ok(Some(vs.0))
  {
    ReadDescriptorsRendered(reg, ts);
  }

  /** decode reads back a payload laid out as the encoder writes it: a name
      free of '<' and '>', the rendered descriptors between '<' and '>', and
      the argument data, which is decoded from its first byte. */
  lemma CallOfEncoded(reg: Registry, bytes: seq<byte>, name: string, ts: seq<Token>, argData: seq<byte>)
    requires AllWellFormed(ts) && |ts| > 0 && Unmarked(name)
    requires AsString(bytes) == name + "<" + RenderAll(ts) + ">" + AsString(argData)
    ensures CallOf(reg, Some(bytes)) ==
      var vs :- ValuesAt(reg, argData, 0, DescriptorsOf(reg, ts));
      Ok(Some(MethodCaller(name, Some(RenderAll(ts)), Some(vs.0))))
  {
    var s := AsString(bytes);
    var desc := RenderAll(ts);
    var m1 := |name|;
    var m2 := m1 + 1 + |desc|;
    HeaderText(s, name, desc, AsString(argData));
    assert s[m2 + 1..] == AsString(argData);
    RenderAllUnmarked(ts);
    AsStringSlice(bytes, m2 + 1);
    AsStringInjective(bytes[m2 + 1..], argData);
    CallOfFramed(reg, bytes, name, desc, argData, m1, m2);
    ArgumentsRendered(reg, argData, ts);
  }

  /** "name<>" announces an empty descriptor, which decodes to no argument
      list at all while the descriptor itself is kept as the empty string. */
  lemma CallOfEmptyDescriptor(reg: Registry, bytes: seq<byte>, name: string, argData: seq<byte>)
    requires Unmarked(name)
    requires AsString(bytes) == name + "<>" + AsString(argData)
    ensures CallOf(reg, Some(bytes)) == Ok(Some(MethodCaller(name, Some(""), None)))
  {
    var s := AsString(bytes);
    assert s == name + "<" + "" + ">" + AsString(argData);
    HeaderText(s, name, "", AsString(argData));
    CallOfHeader(reg, bytes, |name|, |name| + 1);
  }

  /** decodeOneObject reads back one rendered descriptor followed by its
      value's data. */
  lemma OneObjectRendered(reg: Registry, data: seq<byte>, t: Token)
    requires WellFormed(t) && TextAt(AsString(data), 0, Render(t))
    ensures OneObjectOf(reg, data) ==
      var o :- ObjectAt(reg, data, |Render(t)|, DescriptorOf(reg, t));
      Ok(o.value)
  {
    ParseRendered(reg, t, AsString(data));
  }
}

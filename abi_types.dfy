/** The elementary ABI types (ABIEncoder.ABITypes) as the decoder sees them.
    Their tables and byte layouts are not part of this model: a Registry
    supplies them as uninterpreted functions. */
module ABITypes {
  import opened Base

  /** One elementary ABI type (byte, int, address, ...). */
  type Tag(==)

  /** One decoded elementary value, whatever the type's decoder builds. */
  type Elem(0)

  /** What the decoder asks of ABITypes:
      - mapTag: `mapABITypes`, the type named by one descriptor character;
      - identifiers: the Java parameter type names the type may bind to;
      - decodeScalar: the type's own `decode(data, offset)`, giving the value
        and the offset just after it, or the exception it raises. */
  datatype Registry = Registry(
    mapTag: char -> Tag,
    identifiers: Tag -> set<string>,
    decodeScalar: (Tag, seq<byte>, int) -> Result<(Elem, int)>)
  {
    /** The structural characters of the argument descriptor are not
        elementary types: no parameter type binds to them. */
    predicate MarkersReserved() {
      && identifiers(mapTag('[')) == {}
      && identifiers(mapTag(']')) == {}
      && identifiers(mapTag('(')) == {}
      && identifiers(mapTag(')')) == {}
      && identifiers(mapTag('<')) == {}
      && identifiers(mapTag('>')) == {}
    }
  }

  /** A decoded argument. The runtime keeps a native and a wrapped form side
      by side; both are built by the type from the same elements, so one
      structural value stands for the pair. */
  datatype Value =
    | Element(tag: Tag, elem: Elem)
    | Vector(tag: Tag, elems: seq<Elem>)
    | Matrix(tag: Tag, rows: seq<seq<Elem>>)

  /** DecodedObjectInfo: a value and the data offset just after it. */
  datatype Decoded = Decoded(value: Value, endByte: int)
}

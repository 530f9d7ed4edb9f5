/** The XML Schema part kinds of src/soap/part.rs and their schema type names. */
module SoapPart {

  type int8 = x: int | -0x80 <= x < 0x80
  type int16 = x: int | -0x8000 <= x < 0x8000
  type int32 = x: int | -0x8000_0000 <= x < 0x8000_0000
  type int64 = x: int | -0x8000_0000_0000_0000 <= x < 0x8000_0000_0000_0000
  type uint8 = x: int | 0 <= x < 0x100
  type uint16 = x: int | 0 <= x < 0x1_0000
  type uint32 = x: int | 0 <= x < 0x1_0000_0000
  type uint64 = x: int | 0 <= x < 0x1_0000_0000_0000_0000

  /** Rust's `f64`, kept as its 64 bits: nothing here does arithmetic on it. */
  datatype Float64 = Float64(bits: bv64)

  /**
   * One typed value. String-derived and date-derived kinds carry their lexical text;
   * the four constrained integer kinds carry a bare `u64` magnitude whose range is
   * not checked; `ComplexType` holds an attribute map and a content map that nest.
   */
  datatype Part =
    // String-derived
    | Id(text: string)
    | IdRef(text: string)
    | Language(text: string)
    | Name(text: string)
    | NmToken(text: string)
    | NormalizedString(text: string)
    | String(text: string)
    | Token(text: string)
    // Date-derived
    | Date(text: string)
    | Time(text: string)
    | DateTime(text: string)
    | Duration(text: string)
    // Numeric
    | Byte(i8: int8)
    | Short(i16: int16)
    | Int(i32: int32)
    | Long(i64: int64)
    | UnsignedByte(u8: uint8)
    | UnsignedShort(u16: uint16)
    | UnsignedInt(u32: uint32)
    | UnsignedLong(u64: uint64)
    | Decimal(f64: Float64)
    | Integer(integer: int64)
    | NegativeInteger(magnitude: uint64)
    | PositiveInteger(magnitude: uint64)
    | NonNegativeInteger(magnitude: uint64)
    | NonPositiveInteger(magnitude: uint64)
    // Misc.
    | Boolean(b: bool)
    | Base64Binary(text: string)
    | HexBinary(text: string)
    | AnyUri(text: string)
    // Attributes, content
    | ComplexType(attributes: map<string, Part>, content: map<string, Part>)

  /**
   * `Part::xsd_type`: the schema type name of a part. Both arms of the source's match
   * give `xsd:string`, so the name is the same for every kind and every payload.
   */
  function XsdType(p: Part): (r: string)
    ensures r == "xsd:string"
  {
    match p
    case String(_) => "xsd:string"
    case _ => "xsd:string"
  }

  /** The type name ignores the payload and the kind: any two parts have the same one. */
  lemma XsdTypeConstant(p: Part, q: Part)
    ensures XsdType(p) == XsdType(q)
  {
  }
}

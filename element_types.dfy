/** nGraph element types (element::Type_t) and their storage width. */
module ElementTypes {

  datatype ElementType =
    | Undefined | Dynamic
    | Boolean
    | Bf16 | F16 | F32 | F64
    | I8 | I16 | I32 | I64
    | U1 | U8 | U16 | U32 | U64

  /** Bytes one element occupies (element::Type::size()); the two
      placeholder types occupy none, and u1 rounds its single bit up to a byte. */
  function ByteWidth(t: ElementType): (w: nat)
    ensures w == 0 <==> t == Undefined || t == Dynamic
    ensures w <= 8
  {
    match t
    case Undefined => 0
    case Dynamic => 0
    case Boolean => 1
    case Bf16 => 2
    case F16 => 2
    case F32 => 4
    case F64 => 8
    case I8 => 1
    case I16 => 2
    case I32 => 4
    case I64 => 8
    case U1 => 1
    case U8 => 1
    case U16 => 2
    case U32 => 4
    case U64 => 8
  }
}

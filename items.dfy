/** Values stored in the containers: the `item` variant and the scalar types it carries. */
module Items {

  /** A raw unsigned 32-bit integer, as read from old archives. */
  newtype UInt32 = x: int | 0 <= x < 0x1_0000_0000

  /** A signed 32-bit integer (`SInt32`). */
  newtype Int32 = x: int | -0x8000_0000 <= x < 0x8000_0000

  /** An unsigned byte, the width of the version-0 record tag. */
  newtype Byte = x: int | 0 <= x < 256

  /** A reference to a host entity: load-slot byte and 24-bit local index packed in 32 bits. */
  newtype FormId = x: int | 0 <= x < 0x1_0000_0000

  /** The distinguished "no entity" identifier. */
  const FormZero: FormId := 0

  /** A 32-bit float is only carried, never computed on: its bit pattern is all the model keeps. */
  datatype Float32 = Float32(bits: bv32)

  /** The address of a container object (`object_base *`); 0 is the null pointer. */
  type ObjPtr = nat

  /** The current (version 2) value variant. */
  datatype Item =
    | Null
    | Int(i: Int32)
    | Flt(f: Float32)
    | Str(s: string)
    | Obj(ptr: ObjPtr)
    | Form(id: FormId)

  /** Assigning a FormId to an item: FormZero makes the item null, any other id is stored as a form. */
  function FromFormId(id: FormId): (i: Item)
    ensures i.Null? <==> id == FormZero
    ensures !i.Null? ==> i == Form(id)
  {
    if id == FormZero then Null else Form(id)
  }
}

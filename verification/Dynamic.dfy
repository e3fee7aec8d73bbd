/** The dynamic values that drivers, decoder, rules and point tables pass around. */
module Dynamic {
  import opened Words

  /** A value tagged with its Go type; floats are their bit patterns. Other is any
      value of a type none of these modules looks into. */
  datatype Value =
    | Nil
    | GoInt(i: int)
    | GoUint(u: nat)
    | Int16(i16: int)
    | Int32(i32: int)
    | Int64(i64: int)
    | Uint16(u16: uint16)
    | Uint32(u32: nat)
    | Uint64(u64: nat)
    | Float32(bits32: nat)
    | Float64(bits64: nat)
    | Bool(b: bool)
    | Str(s: string)
    | Bytes(bytes: seq<byte>)
    | WordSlice(words: seq<uint16>)
    | BoolSlice(bits: seq<bool>)
    | ObjectID(objectType: uint16, instance: nat)
    | Other(repr: string)
}

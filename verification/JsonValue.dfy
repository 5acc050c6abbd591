// JSON values as crates/storage/src/jsonb.rs holds them. Strings are their UTF-8
// bytes; `F` stands for a floating-point number.
module JsonValue {

  type Byte = x: int | 0 <= x < 256
  type Bytes = seq<Byte>

  datatype Option<+T> = None | Some(value: T)

  datatype Val<+F> =
    | Null
    | Bool(b: bool)
    | Int(n: int)
    | Float(f: F)
    | Str(s: Bytes)
    | Array(items: seq<Val<F>>)
    | Object(members: seq<Pair<F>>)

  datatype Pair<+F> = Member(key: Bytes, value: Val<F>)

  const MIN_I64: int := -0x8000_0000_0000_0000
  const MAX_I64: int := 0x7FFF_FFFF_FFFF_FFFF
}

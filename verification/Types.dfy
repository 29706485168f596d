/** Vocabulary shared by every module: byte strings and optional values. */
module Types {
  newtype byte = b: int | 0 <= b < 256

  type Bytes = seq<byte>
  type Key = seq<byte>
  type Text = seq<byte>

  datatype Option<+T> = None | Some(value: T)

  function Max(a: int, b: int): (m: int)
    ensures m >= a && m >= b && (m == a || m == b)
  {
    if a >= b then a else b
  }

  function Min(a: int, b: int): (m: int)
    ensures m <= a && m <= b && (m == a || m == b)
  {
    if a <= b then a else b
  }
}

// Types shared by every module of the model.
module Basics {

  /** `uint8_t`. */
  newtype byte = x: int | 0 <= x < 256

  datatype Option<+T> = None | Some(value: T)

  /** A byte or, as -1, its absence. */
  function AsInt(r: Option<byte>): int {
    match r
    case None => -1
    case Some(x) => x as int
  }

  /** The other way round. */
  function OfInt(r: int): seq<byte>
    requires -1 <= r < 256
  {
    if r == -1 then [] else [r as byte]
  }

  lemma OfIntOf(r: Option<byte>)
    ensures -1 <= AsInt(r) < 256 && OfInt(AsInt(r)) == if r.None? then [] else [r.value]
  {
  }

  function Min(a: int, b: int): int {
    if a <= b then a else b
  }
}

/** Fixed-width machine values and the result types shared by the drivers. */
module Words {
  const MODULUS := 0x1_0000

  type uint16 = x: int | 0 <= x < 0x1_0000
  type byte = x: int | 0 <= x < 0x100

  /** The uint16 conversion of a sum or difference of two uint16 values. */
  function Wrap(x: int): uint16
    requires -MODULUS <= x < 2 * MODULUS
  {
    if x < 0 then x + MODULUS else if x < MODULUS then x else x - MODULUS
  }

  lemma WrapIsModulo(x: int)
    requires -MODULUS <= x < 2 * MODULUS
    ensures Wrap(x) == x % MODULUS
  {
    if x >= MODULUS {
      assert (x - MODULUS) % MODULUS == x - MODULUS;
    }
  }

  datatype Option<+T> = None | Some(value: T)

  datatype Error = BadAddress(point: string) | ReadFailed

  /** What a Go call that can return an error, or panic, ends in. */
  datatype Outcome<+T> = Done(value: T) | Failed(error: Error) | Panicked

  /** binary.BigEndian.PutUint16 */
  function PutWord(w: uint16): seq<byte> {
    [w / 0x100, w % 0x100]
  }

  /** binary.BigEndian.Uint16 on the two bytes at position 2 * k */
  function WordAt(bytes: seq<byte>, k: nat): uint16
    requires 2 * k + 2 <= |bytes|
  {
    bytes[2 * k] as int * 0x100 + bytes[2 * k + 1]
  }

  function WordsAt(bytes: seq<byte>, offset: nat, count: nat): (words: seq<uint16>)
    requires 2 * (offset + count) <= |bytes|
    ensures |words| == count
    ensures forall r :: 0 <= r < count ==> words[r] == WordAt(bytes, offset + r)
  {
    seq<uint16>(count, r requires 0 <= r < count => WordAt(bytes, offset + r))
  }
}

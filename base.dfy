/** Shared vocabulary: bytes, optional values and zero-filled buffers. */
module Base {

  /** An unsigned 8-bit value, the element type of `byte[]`. */
  newtype byte = x: int | 0 <= x < 0x100

  /** `None` stands for a C# `null` (or an absent table entry). */
  datatype Option<+T> = None | Some(value: T)

  /** A freshly allocated `byte[n]`: every element is zero. */
  function Zeros(n: nat): (z: seq<byte>)
    ensures |z| == n
    ensures forall k :: 0 <= k < n ==> z[k] == 0
  {
    seq(n, _ => 0)
  }
}

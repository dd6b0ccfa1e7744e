/** Bytes, and Python's slices of them. */
module Binary {

  type Byte = x: int | 0 <= x < 256
  type Bytes = seq<Byte>

  function Smaller(a: nat, b: nat): nat {
    if a < b then a else b
  }

  /** `b[i:j]`, cut off where the bytes end. */
  function Slice(b: Bytes, i: nat, j: nat): Bytes
    requires i <= j
  {
    b[Smaller(i, |b|)..Smaller(j, |b|)]
  }

  /** A little-endian number. */
  function LittleEndian(b: Bytes): nat {
    if b == [] then 0 else
      var low: int := b[0];
      low + 256 * LittleEndian(b[1..])
  }
}

/** Padding to blocks of 256 bytes before encryption. */
module Padding {
  import opened Buzhash
  import opened Chunking

  function Repeat(b: Byte, n: nat): (r: Bytes)
    ensures |r| == n && forall i :: 0 <= i < n ==> r[i] == b
  {
    seq(n, _ => b)
  }

  function PaddingLength(n: nat): (r: nat)
    ensures 1 <= r <= 256 && (n + r) % 256 == 0
  {
    256 - n % 256
  }

  /** The padded data: a multiple of 256 bytes, all of the padding being its length, and 256 stored as 0. */
  function Pad(data: Bytes): (r: Bytes)
    ensures |r| % 256 == 0 && |data| < |r| <= |data| + 256 && r[..|data|] == data
  {
    var n := PaddingLength(|data|);
    data + Repeat((n % 256) as Byte, n)
  }

  /** This is the data followed by `n` bytes of padding. */
  ghost predicate IsPadded(padded: Bytes, data: Bytes, n: nat) {
    1 <= n <= 256 && padded == data + Repeat((n % 256) as Byte, n)
  }

  lemma PaddingByte(padded: Bytes, data: Bytes, n: nat, i: nat)
    requires IsPadded(padded, data, n) && i < n
    ensures |padded| == |data| + n && padded[|padded| - 1 - i] == (n % 256) as Byte
  {
    assert padded[|padded| - 1 - i] == Repeat((n % 256) as Byte, n)[n - 1 - i];
  }

  /** Reading the length of the padding of nothing at all ends in a panic. */
  datatype Unpadded = Data(data: Bytes) | Refused | Crashed

  /** Remove the padding, if the data before it is not empty and all of it is as it should be. */
  method Unpad(padded: Bytes) returns (r: Unpadded)
    ensures r.Crashed? <==> padded == []
    ensures r.Data? ==> r.data != [] && exists n: nat :: IsPadded(padded, r.data, n)
    ensures r.Refused? ==> forall d, n: nat :: d != [] ==> !IsPadded(padded, d, n)
  {
    if padded == [] { return Crashed; }
    var paddingLength: nat := padded[|padded| - 1];
    if paddingLength == 0 { paddingLength := 256; }
    forall d, n: nat | IsPadded(padded, d, n) ensures n == paddingLength && |d| == |padded| - n {
      PaddingByte(padded, d, n, 0);
    }
    if |padded| <= paddingLength { return Refused; }
    for i := 0 to paddingLength
      invariant forall k :: |padded| - i <= k < |padded| ==> padded[k] == (paddingLength % 256) as Byte
    {
      if padded[|padded| - 1 - i] != (paddingLength % 256) as Byte {
        forall d, n: nat ensures !IsPadded(padded, d, n) {
          if IsPadded(padded, d, n) { PaddingByte(padded, d, n, i); }
        }
        return Refused;
      }
    }
    var front := padded[..|padded| - paddingLength];
    assert padded == front + Repeat((paddingLength % 256) as Byte, paddingLength);
    assert IsPadded(padded, front, paddingLength);
    r := Data(front);
  }

  /** Padding determines the data. */
  lemma PaddingIsUnique(padded: Bytes, a: Bytes, m: nat, b: Bytes, n: nat)
    requires IsPadded(padded, a, m) && IsPadded(padded, b, n)
    ensures m == n && a == b
  {
    PaddingByte(padded, a, m, 0);
    PaddingByte(padded, b, n, 0);
    assert a == padded[..|padded| - m];
  }

  /** Padding and removing the padding gives the data back, except that padding nothing is refused. */
  method PadAndUnpad(data: Bytes) returns (back: Unpadded)
    ensures back == if data == [] then Refused else Data(data)
  {
    var padded, n := Pad(data), PaddingLength(|data|);
    assert IsPadded(padded, data, n);
    back := Unpad(padded);
    if back.Data? {
      ghost var k :| IsPadded(padded, back.data, k);
      PaddingIsUnique(padded, data, n, back.data, k);
    }
  }
}

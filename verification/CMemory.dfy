/** Bytes and the two C memory primitives the buffer code is built from. */
module CMemory {

  type byte = x: int | 0 <= x < 256

  /** `memcpy`: the regions must not overlap, as the C library demands. */
  method Memcpy(dst: array<byte>, d: nat, src: array<byte>, s: nat, n: nat)
    requires d + n <= dst.Length && s + n <= src.Length
    requires dst != src || d + n <= s || s + n <= d
    modifies dst
    ensures dst[..] == old(dst[..d]) + old(src[s..s + n]) + old(dst[d + n..])
  {
    for i := 0 to n
      invariant forall j {:trigger dst[j]} :: 0 <= j < dst.Length ==>
        dst[j] == if d <= j < d + i then old(src[j - d + s]) else old(dst[j])
      invariant forall j {:trigger src[j]} :: s <= j < s + n ==> src[j] == old(src[j])
    {
      dst[d + i] := src[s + i];
    }
  }

  /** `memcpy` out of memory that is only read, such as a string argument; also `read`,
      whose source is the file. */
  method Store(dst: array<byte>, d: nat, src: seq<byte>)
    requires d + |src| <= dst.Length
    modifies dst
    ensures dst[..] == old(dst[..d]) + src + old(dst[d + |src|..])
  {
    for i := 0 to |src|
      invariant forall j {:trigger dst[j]} :: 0 <= j < dst.Length ==>
        dst[j] == if d <= j < d + i then src[j - d] else old(dst[j])
    {
      dst[d + i] := src[i];
    }
  }

  /** `memcmp` of a buffer region with memory that is only read. */
  method Differ(a: array<byte>, i: nat, b: seq<byte>) returns (differ: bool)
    requires i + |b| <= a.Length
    ensures differ <==> a[i..i + |b|] != b
  {
    for k := 0 to |b|
      invariant a[i..i + k] == b[..k]
    {
      if a[i + k] != b[k] {
        assert a[i..i + |b|][k] != b[k];
        return true;
      }
    }
    return false;
  }

  /** `memcmp(...) != 0`: whether the two regions differ somewhere. */
  method Memcmp(a: array<byte>, i: nat, b: array<byte>, j: nat, n: nat) returns (differ: bool)
    requires i + n <= a.Length && j + n <= b.Length
    ensures differ <==> a[i..i + n] != b[j..j + n]
  {
    for k := 0 to n
      invariant a[i..i + k] == b[j..j + k]
    {
      if a[i + k] != b[j + k] {
        assert a[i..i + n][k] != b[j..j + n][k];
        return true;
      }
    }
    return false;
  }
}

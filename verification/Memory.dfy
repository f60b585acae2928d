/** Moving blocks in buffers. */
module Memory {

  /** memcpy into a buffer. */
  method CopyIn<T>(dst: array<T>, at: nat, src: seq<T>)
    requires at + |src| <= dst.Length
    modifies dst
    ensures dst[..at] == old(dst[..at]) && dst[at..at + |src|] == src && dst[at + |src|..] == old(dst[at + |src|..])
  {
    for i := 0 to |src|
      invariant dst[..at] == old(dst[..at]) && dst[at + i..] == old(dst[at + i..])
      invariant dst[at..at + i] == src[..i]
    {
      ghost var rest := dst[at + i..];
      dst[at + i] := src[i];
      assert dst[at..at + i + 1] == dst[at..at + i] + [src[i]];
      assert dst[at + i + 1..] == rest[1..];
    }
  }

  /** memmove to the start of the buffer. */
  method MoveDown<T>(dst: array<T>, from: nat, n: nat)
    requires from + n <= dst.Length
    modifies dst
    ensures dst[..n] == old(dst[from..from + n])
  {
    for i := 0 to n
      invariant forall j :: 0 <= j < i ==> dst[j] == old(dst[from + j])
      invariant forall j :: i <= j < dst.Length ==> dst[j] == old(dst[j])
    {
      dst[i] := dst[from + i];
    }
  }
}

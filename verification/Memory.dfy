// memcpy into a buffer.
module Memory {
  import opened Bytes

  method Memcpy(dst: array<byte>, at: nat, src: Buffer)
    requires at + |src| <= dst.Length
    modifies dst
    ensures dst[..at] == old(dst[..at]) && dst[at..at + |src|] == src && dst[at + |src|..] == old(dst[at + |src|..])
    ensures dst[..at + |src|] == old(dst[..at]) + src
  {
    var i := 0;
    while i < |src|
      invariant 0 <= i <= |src|
      invariant dst[..at] == old(dst[..at]) && dst[at..at + i] == src[..i] && dst[at + i..] == old(dst[at + i..])
    {
      dst[at + i] := src[i];
      i := i + 1;
    }
  }
}

// The codec as the store uses it: one-shot compression and safe decompression of whole blocks.
module Lz4 {
  import opened Bytes
  import opened Lz4Format
  import Lz4Encoder
  import Lz4Greedy
  import Lz4Decoder

  lemma BlockIsConforming(block: Buffer, data: Buffer)
    requires IsBlockFor(block, data)
    ensures Lz4Decoder.IsConforming(block) && Lz4Decoder.BlockSize(block) == |data|
            && BlockMeaning(block) == Plain(data)
  {
    hide Decode, Conforms;
    Lz4Decoder.ConformsAtSize(block, |data|);
  }

  // A block for data decompresses to data in every buffer with room for it. In a buffer without any room the decoder
  // takes only the block [0], which is the one the encoder makes of no data.
  method DecompressBlock(block: Buffer, ghost data: Buffer, dst: array<byte>) returns (r: int)
    requires IsBlockFor(block, data) && |data| <= dst.Length && |data| <= Lz4Decoder.MAX_OUTPUT
    modifies dst
    ensures r >= 0 <==> dst.Length > 0 || Lz4Decoder.AcceptedWithoutRoom(block)
    ensures r >= 0 ==> r == |data| && dst[..r] == data
  {
    hide *;
    BlockIsConforming(block, data);
    NothingLong(data, dst.Length);
    r := Lz4Decoder.DecompressSafe(block, dst);
  }

  lemma NothingLong(data: Buffer, n: nat)
    requires |data| <= n
    ensures n == 0 ==> data == []
  {
  }

  // Whatever the hash function, the acceleration and the limit, what the encoder accepts the decoder gives back.
  method RoundTrip(data: Buffer, maxOutputSize: nat, acceleration: int, hash: nat -> nat, block: array<byte>,
                   out: array<byte>)
    returns (r: nat, n: int)
    requires maxOutputSize <= block.Length && |data| <= out.Length && block != out
    modifies block, out
    ensures r <= maxOutputSize
    ensures r > 0 ==> n == |data| && out[..n] == data
    ensures |data| <= Lz4Greedy.MAX_INPUT_SIZE && Lz4Encoder.CompressBound(|data|) <= maxOutputSize ==> r > 0
  {
    hide IsBlockFor, Lz4Encoder.CompressBound;
    r, n := 0, -1;
    r := Lz4Encoder.CompressFast(data, block, maxOutputSize, acceleration, hash);
    if r > 0 {
      n := DecompressBlock(block[..r], data, out);
    }
  }
}

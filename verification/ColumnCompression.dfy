/**
  The LZ4 path of adm-partition-ssb (apps/standalones/adm/adm-partition-ssb/main.cpp):
  blocks are compressed chunk by chunk, written, and decompressed again.  LZ4 itself is
  a parameter: two functions and the round trip LZ4 promises.
 */
module ColumnCompression {
  import opened Basics
  import opened ColumnLayout

  /** LZ4_compress_default and LZ4_decompress_safe; the latter is given the room at its output. */
  datatype Codec = Codec(compress: Bytes -> Bytes, decompress: (Bytes, nat) -> Result<Bytes>)

  /** What LZ4 promises: non-empty output that decompresses to the input wherever that fits, never writing past the room. */
  ghost predicate Lossless(c: Codec) {
    && (forall x: Bytes :: x != [] ==> c.compress(x) != [])
    && (forall x: Bytes, room: nat :: x != [] && |x| <= room ==> c.decompress(c.compress(x), room) == Ok(x))
    && (forall x: Bytes, room: nat :: c.decompress(x, room).Ok? ==> |c.decompress(x, room).value| <= room)
  }

  datatype CompressedBlock = CompressedBlock(chunks: seq<Bytes>, values: nat)

  // ----- compressing one block

  function CompressAll(c: Codec, plain: seq<Bytes>): seq<Bytes> {
    seq(|plain|, i requires 0 <= i < |plain| => c.compress(plain[i]))
  }

  lemma NoChunks(c: Codec, chunkSize: nat)
    requires chunkSize > 0
    ensures Chunks([], chunkSize) == [] && CompressAll(c, []) == []
  {
  }

  lemma CompressLength(c: Codec, plain: seq<Bytes>)
    ensures |CompressAll(c, plain)| == |plain|
  {
  }

  lemma CompressSnoc(c: Codec, plain: seq<Bytes>, chunk: Bytes)
    ensures CompressAll(c, plain + [chunk]) == CompressAll(c, plain) + [c.compress(chunk)]
  {
  }

  /** The chunk-count check never fails; the only way out is a block that is not whole values. */
  method CompressBlock(c: Codec, block: Bytes, chunkSize: nat) returns (r: Result<CompressedBlock>)
    requires Lossless(c) && chunkSize > 0
    ensures r.Ok? <==> WholeValues(block)
    ensures r.Ok? ==> r.value == CompressedBlock(CompressAll(c, Chunks(block, chunkSize)), |block| / 4)
  {
    hide CeilDiv, Concat, Cut, Chunks, CompressAll;
    var numChunks := CeilDiv(|block|, chunkSize);
    var chunks: seq<Bytes> := [];
    ghost var plain: seq<Bytes> := [];
    NoChunks(c, chunkSize);
    assert block[0..] == block;
    var i := 0;
    while i < |block|
      invariant 0 <= i
      invariant plain + Chunks(block[Min(i, |block|)..], chunkSize) == Chunks(block, chunkSize)
      invariant chunks == CompressAll(c, plain)
      decreases |block| - i
    {
      var end := Min(i + chunkSize, |block|);
      var chunk := block[i..end];
      ChunksStep(block, i, chunkSize);
      CompressSnoc(c, plain, chunk);
      ghost var rest := Chunks(block[end..], chunkSize);
      assert plain + ([chunk] + rest) == (plain + [chunk]) + rest;
      plain := plain + [chunk];
      chunks := chunks + [c.compress(chunk)];
      i := i + chunkSize;
    }
    assert block[|block|..] == [];
    NoChunks(c, chunkSize);
    assert plain == Chunks(block, chunkSize);
    CompressLength(c, plain);
    ChunksLaws(block, chunkSize);
    if |chunks| != numChunks {
      return Fatal;
    }
    if |block| % 4 != 0 {
      return Fatal;
    }
    return Ok(CompressedBlock(chunks, |block| / 4));
  }

  // ----- decompressing one block

  /** The sum of a prefix, and of the whole, as the loops need them. */
  lemma PrefixSums(sizes: seq<nat>, k: nat)
    requires k <= |sizes|
    ensures Sum(sizes[..0]) == 0
    ensures k > 0 ==> Sum(sizes[..k]) == Sum(sizes[..k - 1]) + sizes[k - 1]
    ensures Sum(sizes[..k]) <= Sum(sizes)
    ensures k == |sizes| ==> Sum(sizes[..k]) == Sum(sizes)
  {
    if k > 0 { SumSnoc(sizes, k - 1); }
    SumPrefix(sizes, k, |sizes|);
    assert sizes[..|sizes|] == sizes;
  }

  /** What decompressing the first `k` chunks of a buffer gives. */
  function Decode(c: Codec, sizes: seq<nat>, buffer: Bytes, room: nat, k: nat): Result<Bytes>
    requires k <= |sizes| && Sum(sizes) <= |buffer|
  {
    if k == 0 then Ok([])
    else
      PrefixSums(sizes, k);
      match Decode(c, sizes, buffer, room, k - 1)
      case Fatal => Fatal
      case Ok(ahead) =>
        match c.decompress(buffer[Sum(sizes[..k - 1])..Sum(sizes[..k])], room)
        case Fatal => Fatal
        case Ok(chunk) => Ok(ahead + chunk)
  }

  /** Bytes that `k` chunks of full size take. */
  function Rooms(k: nat, room: nat): nat { k * room }

  lemma RoomsLaws(k: nat, n: nat, room: nat)
    ensures Rooms(0, room) == 0 && Rooms(k + 1, room) == Rooms(k, room) + room
    ensures k < n ==> Rooms(k + 1, room) <= Rooms(n, room)
  {
    MulOrder(k + 1, n, room);
  }

  /**
    decompress_block.  The output buffer must have room for every chunk at full size; every read
    stays in the compressed buffer and every write window in the output buffer.
   */
  method DecompressBlock(c: Codec, sizes: seq<nat>, buffer: Bytes, output: array<byte>, room: nat) returns (ok: bool)
    requires Lossless(c) && Sum(sizes) <= |buffer| && Rooms(|sizes|, room) <= output.Length
    modifies output
    ensures ok == Decode(c, sizes, buffer, room, |sizes|).Ok?
    ensures ok ==> Decode(c, sizes, buffer, room, |sizes|).value <= output[..]
  {
    hide Rooms, Sum;
    RoomsLaws(0, |sizes|, room);
    PrefixSums(sizes, 0);
    var compIdx, decompIdx := 0, 0;
    var k := 0;
    while k < |sizes|
      invariant 0 <= k <= |sizes| && compIdx == Sum(sizes[..k])
      invariant 0 <= decompIdx <= output.Length && decompIdx <= Rooms(k, room)
      invariant Decode(c, sizes, buffer, room, k) == Ok(output[..decompIdx])
    {
      PrefixSums(sizes, k + 1);
      RoomsLaws(k, |sizes|, room);
      assert compIdx + sizes[k] <= |buffer| && decompIdx + room <= output.Length;
      var chunk := c.decompress(buffer[compIdx..compIdx + sizes[k]], room);
      if chunk.Fatal? {
        DecodeFails(c, sizes, buffer, room, k + 1, |sizes|);
        return false;
      }
      ghost var ahead := output[..decompIdx];
      forall i | 0 <= i < |chunk.value| {
        output[decompIdx + i] := chunk.value[i];
      }
      compIdx, decompIdx := compIdx + sizes[k], decompIdx + |chunk.value|;
      assert output[..decompIdx] == ahead + chunk.value;
      k := k + 1;
    }
    return true;
  }

  lemma {:induction false} DecodeFails(c: Codec, sizes: seq<nat>, buffer: Bytes, room: nat, j: nat, k: nat)
    requires j <= k <= |sizes| && Sum(sizes) <= |buffer|
    requires Decode(c, sizes, buffer, room, j).Fatal?
    ensures Decode(c, sizes, buffer, room, k).Fatal?
  {
    if j < k { DecodeFails(c, sizes, buffer, room, j, k - 1); }
  }

  function Sizes(parts: seq<Bytes>): seq<nat> {
    seq(|parts|, i requires 0 <= i < |parts| => |parts[i]|)
  }

  lemma {:induction false} SumOfSizes(parts: seq<Bytes>, k: nat)
    requires k <= |parts|
    ensures Sum(Sizes(parts)[..k]) == |Concat(parts[..k])|
    ensures Concat(parts[..k]) <= Concat(parts)
  {
    assert parts == parts[..k] + parts[k..];
    ConcatConcat(parts[..k], parts[k..]);
    if k > 0 {
      SumOfSizes(parts, k - 1);
      SumSnoc(Sizes(parts), k - 1);
      assert parts[..k] == parts[..k - 1] + [parts[k - 1]];
      ConcatSnoc(parts[..k - 1], parts[k - 1]);
    }
  }

  lemma SumOfAll(parts: seq<Bytes>)
    ensures Sum(Sizes(parts)) == |Concat(parts)|
  {
    SumOfSizes(parts, |parts|);
    assert parts[..|parts|] == parts && Sizes(parts)[..|parts|] == Sizes(parts);
  }

  lemma {:induction false} DecodeCompressed(c: Codec, plain: seq<Bytes>, room: nat, k: nat)
    requires Lossless(c) && k <= |plain|
    requires forall i :: 0 <= i < |plain| ==> 0 < |plain[i]| <= room
    ensures var parts := CompressAll(c, plain);
            Sum(Sizes(parts)) <= |Concat(parts)| &&
            Decode(c, Sizes(parts), Concat(parts), room, k) == Ok(Concat(plain[..k]))
  {
    hide Concat, Sizes, Sum;
    var parts := CompressAll(c, plain);
    SumOfAll(parts);
    SizesLength(parts);
    assert plain[..0] == [];
    NoBlocks(0);
    if k > 0 {
      DecodeCompressed(c, plain, room, k - 1);
      SumOfSizes(parts, k - 1);
      SumOfSizes(parts, k);
      assert parts[..k] == parts[..k - 1] + [parts[k - 1]];
      ConcatSnoc(parts[..k - 1], parts[k - 1]);
      PrefixSlice(Concat(parts), Concat(parts[..k - 1]), parts[k - 1]);
      assert plain[..k] == plain[..k - 1] + [plain[k - 1]];
      ConcatSnoc(plain[..k - 1], plain[k - 1]);
    }
  }

  lemma PrefixSlice(all: Bytes, a: Bytes, b: Bytes)
    requires a + b <= all
    ensures all[|a|..|a| + |b|] == b
  {
    assert all[..|a| + |b|] == a + b;
    assert all[|a|..|a| + |b|] == all[..|a| + |b|][|a|..];
  }

  /** Decompressing the concatenated chunks of a compressed block gives the block back. */
  lemma {:induction false} ChunkInverse(c: Codec, block: Bytes, chunkSize: nat)
    requires Lossless(c) && chunkSize > 0
    ensures var parts := CompressAll(c, Chunks(block, chunkSize));
            && Sum(Sizes(parts)) == |Concat(parts)|
            && Decode(c, Sizes(parts), Concat(parts), chunkSize, |parts|) == Ok(block)
            && (block != [] ==> parts != [])
            && (forall p :: p in parts ==> p != [])
  {
    var plain := Chunks(block, chunkSize);
    var parts := CompressAll(c, plain);
    ChunksLaws(block, chunkSize);
    DecodeCompressed(c, plain, chunkSize, |plain|);
    assert plain[..|plain|] == plain;
    SumOfAll(parts);
    assert |parts| == |plain|;
  }

  /**
    Compressing a block and decompressing its concatenated chunks into a buffer with room for all of
    them at full size: it always succeeds on whole values, and the buffer then begins with the block.
   */
  method CompressThenDecompress(c: Codec, block: Bytes, chunkSize: nat) returns (ok: bool, output: array<byte>)
    requires Lossless(c) && chunkSize > 0
    ensures fresh(output)
    ensures ok <==> WholeValues(block)
    ensures ok ==> block <= output[..]
  {
    hide Concat, Sizes, Sum, Decode, Chunks, CompressAll, Lossless;
    var compressed := CompressBlock(c, block, chunkSize);
    if compressed.Fatal? {
      return false, new byte[0];
    }
    var chunks := compressed.value.chunks;
    ChunkInverse(c, block, chunkSize);
    SizesLength(chunks);
    output := new byte[Rooms(|chunks|, chunkSize)];
    ok := DecompressBlock(c, Sizes(chunks), Concat(chunks), output, chunkSize);
  }

  // ----- writing compressed blocks

  datatype CompressedFile = CompressedFile(data: DataFile, chunkSizes: seq<seq<nat>>, chunkSize: nat)

  /** The character '1'. */
  const PADDING_BYTE: byte := 0x31

  function Packed(b: CompressedBlock): Block { Block(Concat(b.chunks), b.values) }

  function PackedAll(blocks: seq<CompressedBlock>): seq<Block> {
    seq(|blocks|, k requires 0 <= k < |blocks| => Packed(blocks[k]))
  }

  function ChunkSizes(blocks: seq<CompressedBlock>): seq<seq<nat>> {
    seq(|blocks|, k requires 0 <= k < |blocks| => Sizes(blocks[k].chunks))
  }

  /** At least one chunk and no empty one. */
  predicate Writable(b: CompressedBlock) {
    b.chunks != [] && forall p :: p in b.chunks ==> p != []
  }

  /** Writes the chunks of one block after each other, from `pos` on. */
  method WriteChunks(content: Bytes, pos: nat, chunks: seq<Bytes>) returns (r: Result<Bytes>, size: nat, sizes: seq<nat>)
    requires pos <= |content|
    ensures r.Ok? <==> chunks != [] && forall p :: p in chunks ==> p != []
    ensures r.Ok? ==>
              r.value == WriteAt(content, pos, Concat(chunks)) && size == |Concat(chunks)| && sizes == Sizes(chunks)
  {
    hide WriteAt, Concat;
    size, sizes := 0, [];
    if |chunks| < 1 {
      return Fatal, 0, [];
    }
    var out := content;
    NoBlocks(0);
    assert chunks[..0] == [];
    WriteNothing(content, pos);
    var k := 0;
    while k < |chunks|
      invariant 0 <= k <= |chunks|
      invariant forall p :: p in chunks[..k] ==> p != []
      invariant out == WriteAt(content, pos, Concat(chunks[..k])) && size == |Concat(chunks[..k])|
      invariant sizes == Sizes(chunks[..k])
    {
      if |chunks[k]| == 0 {
        assert chunks[k] in chunks && chunks[k] == [];
        return Fatal, 0, [];
      }
      assert chunks[..k + 1] == chunks[..k] + [chunks[k]];
      ConcatSnoc(chunks[..k], chunks[k]);
      WriteAtNext(content, pos, Concat(chunks[..k]), chunks[k]);
      out := WriteAt(out, pos + size, chunks[k]);
      size := size + |chunks[k]|;
      sizes := sizes + [|chunks[k]|];
      k := k + 1;
    }
    assert chunks[..k] == chunks;
    r := Ok(out);
  }

  /** One output file, opened without truncating what an earlier run may have left there. */
  method WriteCompressedFile(blocks: seq<CompressedBlock>, chunkSize: nat, was: Bytes) returns (r: Result<CompressedFile>)
    ensures r.Ok? <==> forall b :: b in blocks ==> Writable(b)
    ensures r.Ok? ==> r.value == FileOf(blocks, chunkSize, was)
  {
    hide Concat, Sizes, Padding, PaddingSize, WriteAt, Over;
    var content, sizes: seq<nat>, offsets: seq<nat>, counts: seq<nat> := was, [], [], [];
    var chunkSizes: seq<seq<nat>> := [];
    var numBlocks, offset := 0, 0;
    ghost var bytes: Bytes := [];
    OverNothing(was);
    var j := 0;
    while j < |blocks|
      invariant 0 <= j <= |blocks| && offset == |bytes| && content == Over(bytes, was)
      invariant forall b :: b in blocks[..j] ==> Writable(b)
      invariant DataFile(bytes, numBlocks, sizes, offsets, counts) == Pack(PackedAll(blocks[..j]), PADDING_BYTE)
      invariant chunkSizes == ChunkSizes(blocks[..j])
    {
      PackedSnoc(blocks, j);
      WriteOver(bytes, was, Concat(blocks[j].chunks));
      var written, size, blockChunkSizes := WriteChunks(content, offset, blocks[j].chunks);
      assert blocks[j] in blocks;
      if written.Fatal? {
        return Fatal;
      }
      numBlocks := numBlocks + 1;
      sizes := sizes + [size];
      offsets := offsets + [offset];
      counts := counts + [blocks[j].values];
      chunkSizes := chunkSizes + [blockChunkSizes];
      ghost var payload := bytes + Concat(blocks[j].chunks);
      WriteOver(payload, was, Padding(size, PADDING_BYTE));
      var padded;
      content, padded := WritePadding(written.value, offset + size, size, PADDING_BYTE);
      PadBytes(size, PADDING_BYTE);
      bytes := payload + Padding(size, PADDING_BYTE);
      offset := offset + padded + size;
      assert blocks[..j + 1] == blocks[..j] + [blocks[j]];
      j := j + 1;
    }
    assert blocks[..j] == blocks;
    return Ok(CompressedFile(DataFile(content, numBlocks, sizes, offsets, counts), chunkSizes, chunkSize));
  }

  lemma OverNothing(was: Bytes)
    ensures Over([], was) == was
  {
  }

  lemma PackedSnoc(blocks: seq<CompressedBlock>, j: nat)
    requires j < |blocks|
    ensures var all := PackedAll(blocks[..j + 1]);
            all != [] && all[..j] == PackedAll(blocks[..j]) && all[j] == Packed(blocks[j]) && |all| == j + 1
    ensures ChunkSizes(blocks[..j + 1]) == ChunkSizes(blocks[..j]) + [Sizes(blocks[j].chunks)]
  {
    var all := PackedAll(blocks[..j + 1]);
    assert all[..j] == PackedAll(blocks[..j]);
  }

  method WriteCompressedBlocksToFiles(blocks: seq<CompressedBlock>, numFiles: nat, chunkSize: nat, was: seq<Bytes>)
    returns (r: Result<seq<CompressedFile>>)
    requires numFiles > 0 && |was| == numFiles
    ensures r.Ok? <==> forall b :: b in blocks ==> Writable(b)
    ensures r.Ok? ==> |r.value| == numFiles
    ensures r.Ok? ==> forall i :: 0 <= i < numFiles ==> r.value[i] == FileOf(FileSlice(blocks, numFiles, i), chunkSize, was[i])
  {
    hide FileSlice, FileOf, Writable;
    var files: seq<CompressedFile> := [];
    var i := 0;
    while i < numFiles
      invariant 0 <= i <= numFiles && |files| == i
      invariant forall k :: 0 <= k < i ==> files[k] == FileOf(FileSlice(blocks, numFiles, k), chunkSize, was[k])
      invariant forall b :: b in Dealt(blocks, numFiles, i) ==> Writable(b)
    {
      var file := WriteCompressedFile(FileSlice(blocks, numFiles, i), chunkSize, was[i]);
      SliceInside(blocks, numFiles, i);
      if file.Fatal? {
        return Fatal;
      }
      files := files + [file.value];
      i := i + 1;
    }
    DealtAll(blocks, numFiles);
    return Ok(files);
  }

  /** The file that holds some blocks, written over one that held `was`. */
  function FileOf(blocks: seq<CompressedBlock>, chunkSize: nat, was: Bytes): CompressedFile {
    CompressedFile(OverFile(Pack(PackedAll(blocks), PADDING_BYTE), was), ChunkSizes(blocks), chunkSize)
  }

  /** compressBlocks: every block compressed, in order. */
  method CompressBlocks(c: Codec, blocks: seq<Bytes>, chunkSize: nat) returns (r: Result<seq<CompressedBlock>>)
    requires Lossless(c) && chunkSize > 0
    ensures r.Ok? <==> forall b :: b in blocks ==> WholeValues(b)
    ensures r.Ok? ==> r.value == CompressedAll(c, blocks, chunkSize)
  {
    hide Chunks, CompressAll, WholeValues, Lossless;
    var out: seq<CompressedBlock> := [];
    var k := 0;
    while k < |blocks|
      invariant 0 <= k <= |blocks| && |out| == k
      invariant forall i :: 0 <= i < k ==> WholeValues(blocks[i]) && out[i] == Compressed(c, blocks[i], chunkSize)
    {
      var one := CompressBlock(c, blocks[k], chunkSize);
      if one.Fatal? {
        assert blocks[k] in blocks;
        return Fatal;
      }
      out := out + [one.value];
      k := k + 1;
    }
    return Ok(out);
  }

  function Compressed(c: Codec, block: Bytes, chunkSize: nat): CompressedBlock
    requires chunkSize > 0
  {
    CompressedBlock(CompressAll(c, Chunks(block, chunkSize)), |block| / 4)
  }

  function CompressedAll(c: Codec, blocks: seq<Bytes>, chunkSize: nat): seq<CompressedBlock>
    requires chunkSize > 0
  {
    seq(|blocks|, k requires 0 <= k < |blocks| => Compressed(c, blocks[k], chunkSize))
  }

  // ----- reading compressed files back

  /** A compressed file's metadata describe its blocks, and the chunks of each block fill it. */
  ghost predicate ChunksFit(f: CompressedFile) {
    && Located(f.data) && |f.chunkSizes| == |f.data.blockSizes|
    && forall k :: 0 <= k < |f.chunkSizes| ==> Sum(f.chunkSizes[k]) == f.data.blockSizes[k]
  }

  /** The k-th block as a reader recovers it. */
  function DecodeBlock(c: Codec, f: CompressedFile, k: nat): Result<Bytes>
    requires ChunksFit(f) && k < |f.chunkSizes|
  {
    BlockSize(f.data, k);
    Decode(c, f.chunkSizes[k], ReadBlock(f.data, k), f.chunkSize, |f.chunkSizes[k]|)
  }

  /** All blocks of all files, in file order; Fatal if one does not decompress. */
  function DecodeFiles(c: Codec, files: seq<CompressedFile>): Result<seq<Bytes>>
    requires forall i :: 0 <= i < |files| ==> ChunksFit(files[i])
    decreases files
  {
    if files == [] then Ok([])
    else
      var last := files[|files| - 1];
      match (DecodeFiles(c, files[..|files| - 1]), DecodeBlocks(c, last, |last.chunkSizes|))
      case (Ok(ahead), Ok(blocks)) => Ok(ahead + blocks)
      case _ => Fatal
  }

  function DecodeBlocks(c: Codec, f: CompressedFile, n: nat): Result<seq<Bytes>>
    requires ChunksFit(f) && n <= |f.chunkSizes|
  {
    if n == 0 then Ok([])
    else
      match (DecodeBlocks(c, f, n - 1), DecodeBlock(c, f, n - 1))
      case (Ok(ahead), Ok(block)) => Ok(ahead + [block])
      case _ => Fatal
  }

  lemma {:induction false} FileDecodes(c: Codec, blocks: seq<Bytes>, chunkSize: nat, was: Bytes, n: nat)
    requires Lossless(c) && chunkSize > 0 && n <= |blocks|
    ensures var f := FileOf(CompressedAll(c, blocks, chunkSize), chunkSize, was);
            ChunksFit(f) && |f.chunkSizes| == |blocks| && DecodeBlocks(c, f, n) == Ok(blocks[..n])
    decreases n
  {
    hide Lossless, Decode, Located, Consistent, PackedEnd, ReadBlock, Pack, CompressAll, Chunks, Sum, Sizes, Concat;
    var compressed := CompressedAll(c, blocks, chunkSize);
    var f := FileOf(compressed, chunkSize, was);
    FileFits(c, blocks, chunkSize, was);
    if n > 0 {
      FileDecodes(c, blocks, chunkSize, was, n - 1);
      BlockDecodes(c, blocks, chunkSize, was, n - 1);
      assert blocks[..n] == blocks[..n - 1] + [blocks[n - 1]];
    }
  }

  /** Its chunks fit its blocks, and it is tiled exactly if the older file was not longer. */
  lemma {:induction false} FileFits(c: Codec, blocks: seq<Bytes>, chunkSize: nat, was: Bytes)
    requires Lossless(c) && chunkSize > 0
    ensures var f := FileOf(CompressedAll(c, blocks, chunkSize), chunkSize, was);
            && ChunksFit(f) && |f.chunkSizes| == |blocks|
            && (Consistent(f.data) <==> |was| <= PaddedSizes(PackedAll(CompressedAll(c, blocks, chunkSize))))
  {
    hide Lossless, Decode, Located, Consistent, PackedEnd, Over, Pack, CompressAll, Chunks, Sum, Sizes, Concat;
    var compressed := CompressedAll(c, blocks, chunkSize);
    var f := FileOf(compressed, chunkSize, was);
    PackReads(PackedAll(compressed), PADDING_BYTE);
    PackSize(PackedAll(compressed), PADDING_BYTE);
    PackedReads(Pack(PackedAll(compressed), PADDING_BYTE), was);
    forall k | 0 <= k < |f.chunkSizes|
      ensures Sum(f.chunkSizes[k]) == f.data.blockSizes[k]
    {
      BlockSize(f.data, k);
      ChunkInverse(c, blocks[k], chunkSize);
      SizesLength(compressed[k].chunks);
    }
  }

  lemma PackedReads(f: DataFile, was: Bytes)
    requires Consistent(f)
    ensures Located(f)
    ensures var g := OverFile(f, was);
            && Located(g) && g.blockSizes == f.blockSizes
            && (forall k :: 0 <= k < |f.blockSizes| ==> ReadBlock(g, k) == ReadBlock(f, k))
            && (Consistent(g) <==> |was| <= |f.bytes|)
  {
    hide PackedEnd, PaddingSize, ReadBlock;
    OverReads(f, was);
  }

  lemma BlockSize(f: DataFile, k: nat)
    requires Located(f) && k < |f.blockSizes|
    ensures f.blockSizes[k] == |ReadBlock(f, k)|
  {
    assert BlockPlaced(f, k);
  }

  lemma SizesLength(parts: seq<Bytes>)
    ensures |Sizes(parts)| == |parts|
  {
  }

  lemma {:induction false} BlockDecodes(c: Codec, blocks: seq<Bytes>, chunkSize: nat, was: Bytes, k: nat)
    requires Lossless(c) && chunkSize > 0 && k < |blocks|
    requires ChunksFit(FileOf(CompressedAll(c, blocks, chunkSize), chunkSize, was))
    requires |FileOf(CompressedAll(c, blocks, chunkSize), chunkSize, was).chunkSizes| == |blocks|
    ensures DecodeBlock(c, FileOf(CompressedAll(c, blocks, chunkSize), chunkSize, was), k) == Ok(blocks[k])
  {
    hide Lossless, Decode, Located, Consistent, PackedEnd, Over, Pack, CompressAll, Chunks, Sum, Sizes, Concat, ReadBlock;
    var compressed := CompressedAll(c, blocks, chunkSize);
    PackReads(PackedAll(compressed), PADDING_BYTE);
    PackedReads(Pack(PackedAll(compressed), PADDING_BYTE), was);
    ChunkInverse(c, blocks[k], chunkSize);
    SizesLength(compressed[k].chunks);
  }

  lemma CompressedSlices(c: Codec, blocks: seq<Bytes>, chunkSize: nat, numFiles: nat, i: nat)
    requires numFiles > 0 && chunkSize > 0
    ensures FileSlice(CompressedAll(c, blocks, chunkSize), numFiles, i)
         == CompressedAll(c, FileSlice(blocks, numFiles, i), chunkSize)
  {
    FirstBlockLaws(CeilDiv(|blocks|, numFiles), i, |blocks|);
  }

  lemma {:induction false} FilesDecode(c: Codec, blocks: seq<Bytes>, chunkSize: nat, numFiles: nat,
                                       was: seq<Bytes>, files: seq<CompressedFile>)
    requires Lossless(c) && chunkSize > 0 && numFiles > 0 && |files| <= numFiles && |files| <= |was|
    requires forall i :: 0 <= i < |files| ==>
               files[i] == FileOf(FileSlice(CompressedAll(c, blocks, chunkSize), numFiles, i), chunkSize, was[i])
    ensures forall i :: 0 <= i < |files| ==>
              ChunksFit(files[i]) && (Consistent(files[i].data) <==>
                |was[i]| <= PaddedSizes(PackedAll(FileSlice(CompressedAll(c, blocks, chunkSize), numFiles, i))))
    ensures DecodeFiles(c, files) == Ok(Dealt(blocks, numFiles, |files|))
    decreases |files|
  {
    hide Lossless, FileOf, FileSlice, CompressedAll, ChunksFit, DecodeBlocks, Consistent, PackedEnd;
    if files != [] {
      var n := |files| - 1;
      FilesDecode(c, blocks, chunkSize, numFiles, was, files[..n]);
      var slice := FileSlice(blocks, numFiles, n);
      CompressedSlices(c, blocks, chunkSize, numFiles, n);
      FileDecodes(c, slice, chunkSize, was[n], |slice|);
      FileFits(c, slice, chunkSize, was[n]);
      assert slice[..|slice|] == slice;
    }
  }

  /**
    The tool with compression, over whatever the output files held before: it succeeds exactly on
    whole 4-byte values; every file's metadata locate its blocks, and decompressing all blocks in file
    order gives the file back.  The blocks tile an output file exactly if it was not longer before
    than they take.
   */
  method PartitionCompressed(c: Codec, file: Bytes, numFiles: nat, was: seq<Bytes>) returns (r: Result<seq<CompressedFile>>)
    requires Lossless(c) && numFiles > 0 && |was| == numFiles
    ensures r.Ok? <==> |file| % 4 == 0
    ensures r.Ok? ==> |r.value| == numFiles
    ensures r.Ok? ==> forall i :: 0 <= i < numFiles ==>
              && ChunksFit(r.value[i])
              && (Consistent(r.value[i].data) <==> |was[i]| <= FileSize(c, file, numFiles, i))
    ensures r.Ok? ==>
              var blocks := DecodeFiles(c, r.value);
              blocks.Ok? && Cut(blocks.value, 2 * 1024 * 1024) && Concat(blocks.value) == file
    ensures r.Ok? ==> 4 * Sum(AllCounts(Datas(r.value))) == |file|
    ensures r.Ok? ==>
              var blocks := DecodeFiles(c, r.value).value;
              && CountsFit(AllCounts(Datas(r.value)), blocks)
              && EvenlySpread(BlockCounts(Datas(r.value)), |blocks|)
    ensures r.Ok? ==> forall i :: 0 <= i < numFiles ==> r.value[i].chunkSize == 16 * 1024
    ensures r.Ok? ==> forall i, k :: 0 <= i < numFiles && 0 <= k < |r.value[i].data.blockOffsets| ==>
              r.value[i].data.blockOffsets[k] % 4096 == 0
  {
    hide EvenlySpread, CountsFit, BlockCounts;
    hide AllCounts, Datas, Sum, DecodeFiles, ChunksFit, Consistent, PackedEnd, Concat;
    hide FileOf, FileSlice, CompressedAll, Lossless, Writable, WholeValues;
    var blocks := SplitFileIntoBlocks(file, BLOCK_SIZE);
    if blocks.Fatal? {
      return Fatal;
    }
    BlocksWhole(blocks.value, BLOCK_SIZE);
    var compressed := CompressBlocks(c, blocks.value, CHUNK_SIZE);
    AllWritable(c, blocks.value, CHUNK_SIZE);
    r := WriteCompressedBlocksToFiles(compressed.value, numFiles, CHUNK_SIZE, was);
    FilesDecode(c, blocks.value, CHUNK_SIZE, numFiles, was, r.value);
    DealtAll(blocks.value, numFiles);
    CompressedCounts(c, blocks.value, CHUNK_SIZE, numFiles, was, r.value);
    forall i, k | 0 <= i < numFiles && 0 <= k < |r.value[i].data.blockOffsets|
      ensures r.value[i].data.blockOffsets[k] % 4096 == 0
    {
      FitsAligned(r.value[i], k);
    }
  }

  lemma FitsAligned(f: CompressedFile, k: nat)
    requires ChunksFit(f) && k < |f.data.blockOffsets|
    ensures f.data.blockOffsets[k] % 4096 == 0
  {
    hide Located;
    OffsetsAligned(f.data, k);
  }

  function Datas(files: seq<CompressedFile>): seq<DataFile> {
    seq(|files|, i requires 0 <= i < |files| => files[i].data)
  }

  lemma PackedSlices(blocks: seq<CompressedBlock>, numFiles: nat, i: nat)
    requires numFiles > 0
    ensures PackedAll(FileSlice(blocks, numFiles, i)) == FileSlice(PackedAll(blocks), numFiles, i)
  {
    FirstBlockLaws(CeilDiv(|blocks|, numFiles), i, |blocks|);
  }

  lemma PackedValues(c: Codec, blocks: seq<Bytes>, chunkSize: nat)
    requires chunkSize > 0
    ensures Values(PackedAll(CompressedAll(c, blocks, chunkSize))) == Values(PlainAll(blocks))
  {
    hide Concat, Chunks, CompressAll;
  }

  lemma {:induction false} CompressedCounts(c: Codec, blocks: seq<Bytes>, chunkSize: nat, numFiles: nat,
                                            was: seq<Bytes>, files: seq<CompressedFile>)
    requires chunkSize > 0 && numFiles > 0 && |files| == numFiles == |was|
    requires forall i :: 0 <= i < |files| ==>
               files[i] == FileOf(FileSlice(CompressedAll(c, blocks, chunkSize), numFiles, i), chunkSize, was[i])
    requires forall b :: b in blocks ==> WholeValues(b)
    ensures 4 * Sum(AllCounts(Datas(files))) == |Concat(blocks)|
    ensures CountsFit(AllCounts(Datas(files)), blocks)
    ensures EvenlySpread(BlockCounts(Datas(files)), |blocks|)
    ensures forall i :: 0 <= i < |files| ==> files[i].chunkSize == chunkSize
  {
    hide EvenlySpread, CountsFit, BlockCounts;
    hide FileSlice, CompressedAll, PackedAll, Pack, ChunkSizes, AllCounts, Values, Sum, Concat, WholeValues, Dealt;
    var compressed := CompressedAll(c, blocks, chunkSize);
    var packs := seq(numFiles, (i: nat) => Pack(FileSlice(PackedAll(compressed), numFiles, i), PADDING_BYTE));
    forall i | 0 <= i < numFiles
      ensures Datas(files)[i].valueCounts == packs[i].valueCounts && Datas(files)[i].blockSizes == packs[i].blockSizes
    {
      PackedSlices(compressed, numFiles, i);
    }
    SameCounts(Datas(files), packs);
    FilesRead(PackedAll(compressed), numFiles, packs, PADDING_BYTE);
    DealtAll(PackedAll(compressed), numFiles);
    PackedValues(c, blocks, chunkSize);
    CountsSum(blocks);
    PlainCounts(blocks);
    PackedLength(c, blocks, chunkSize);
    FilesSpread(PackedAll(compressed), numFiles, Datas(files), PADDING_BYTE);
  }

  lemma PackedLength(c: Codec, blocks: seq<Bytes>, chunkSize: nat)
    requires chunkSize > 0
    ensures |PackedAll(CompressedAll(c, blocks, chunkSize))| == |blocks|
  {
  }

  lemma {:induction false} SameCounts(a: seq<DataFile>, b: seq<DataFile>)
    requires |a| == |b| && forall i :: 0 <= i < |a| ==> a[i].valueCounts == b[i].valueCounts
    ensures AllCounts(a) == AllCounts(b)
    decreases a
  {
    if a != [] { SameCounts(a[..|a| - 1], b[..|b| - 1]); }
  }

  /** Bytes that output file `i` takes: its share of the file's blocks, each compressed and padded. */
  function FileSize(c: Codec, file: Bytes, numFiles: nat, i: nat): nat
    requires numFiles > 0
  {
    PaddedSizes(PackedAll(FileSlice(CompressedAll(c, Chunks(file, BLOCK_SIZE), CHUNK_SIZE), numFiles, i)))
  }

  /** With more directories than blocks the last file takes nothing, so anything an earlier run left there stays. */
  lemma NothingForLast(c: Codec, file: Bytes, numFiles: nat)
    requires numFiles > |Chunks(file, BLOCK_SIZE)|
    ensures FileSize(c, file, numFiles, numFiles - 1) == 0
  {
    hide Chunks, CompressAll, Concat;
    var blocks := CompressedAll(c, Chunks(file, BLOCK_SIZE), CHUNK_SIZE);
    LastSliceEmpty(blocks, numFiles);
  }

  /** Blocks made by the splitter always pass the writer's checks. */
  lemma AllWritable(c: Codec, blocks: seq<Bytes>, chunkSize: nat)
    requires Lossless(c) && chunkSize > 0
    requires forall i :: 0 <= i < |blocks| ==> blocks[i] != []
    ensures forall b :: b in CompressedAll(c, blocks, chunkSize) ==> Writable(b)
  {
    var all := CompressedAll(c, blocks, chunkSize);
    forall b | b in all ensures Writable(b) {
      var k :| 0 <= k < |all| && all[k] == b;
      ChunkInverse(c, blocks[k], chunkSize);
    }
  }
}

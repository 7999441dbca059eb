/**
  The adm-partition-ssb tool (apps/standalones/adm/adm-partition-ssb/main.cpp): a
  column file is cut into blocks, blocks are optionally compressed in chunks, and
  blocks are written to several padded files with the metadata to find them again.
 */
module ColumnLayout {
  import opened Basics

  type Bytes = seq<byte>

  /** Fatal stands for a failed CHECK, which ends the tool. */
  datatype Result<+T> = Ok(value: T) | Fatal

  const ALIGNMENT: nat := 4096

  function Concat(parts: seq<Bytes>): Bytes
    decreases parts
  {
    if parts == [] then [] else Concat(parts[..|parts| - 1]) + parts[|parts| - 1]
  }

  lemma {:induction false} ConcatSnoc(parts: seq<Bytes>, last: Bytes)
    ensures Concat(parts + [last]) == Concat(parts) + last
  {
    assert (parts + [last])[..|parts|] == parts;
  }

  lemma {:induction false} ConcatConcat(a: seq<Bytes>, b: seq<Bytes>)
    ensures Concat(a + b) == Concat(a) + Concat(b)
    decreases |b|
  {
    if b == [] {
      assert a + b == a;
    } else {
      var b', last := b[..|b| - 1], b[|b| - 1];
      ConcatConcat(a, b');
      assert a + b == (a + b') + [last];
      ConcatSnoc(a + b', last);
      assert Concat(a) + Concat(b') + last == Concat(a) + (Concat(b') + last);
    }
  }

  // ----- cutting a file into blocks

  /** Every part full except the last, which is not empty. */
  ghost predicate Cut(parts: seq<Bytes>, size: nat) {
    && (forall i :: 0 <= i < |parts| ==> 0 < |parts[i]| <= size)
    && (forall i :: 0 <= i < |parts| - 1 ==> |parts[i]| == size)
  }

  lemma NoBlocks(size: nat)
    ensures Concat([]) == [] && Cut([], size)
  {
  }

  /** A block or file cut into pieces of one size, the last perhaps shorter. */
  function Chunks(block: Bytes, chunkSize: nat): seq<Bytes>
    requires chunkSize > 0
    decreases |block|
  {
    if block == [] then []
    else [block[..Min(chunkSize, |block|)]] + Chunks(block[Min(chunkSize, |block|)..], chunkSize)
  }

  lemma ChunksStep(block: Bytes, i: nat, chunkSize: nat)
    requires chunkSize > 0 && i < |block|
    ensures var end := Min(i + chunkSize, |block|);
            Chunks(block[i..], chunkSize) == [block[i..end]] + Chunks(block[end..], chunkSize)
  {
    var rest, end := block[i..], Min(i + chunkSize, |block|);
    assert rest[..end - i] == block[i..end] && rest[end - i..] == block[end..];
  }

  lemma {:induction false} ChunksLaws(block: Bytes, chunkSize: nat)
    requires chunkSize > 0
    ensures Concat(Chunks(block, chunkSize)) == block
    ensures Cut(Chunks(block, chunkSize), chunkSize)
    ensures |Chunks(block, chunkSize)| == CeilDiv(|block|, chunkSize)
    decreases |block|
  {
    hide CeilDiv, Concat, Cut;
    NoBlocks(chunkSize);
    if block == [] {
      CeilDivZero(chunkSize);
    } else {
      var n := Min(chunkSize, |block|);
      var first, rest := block[..n], block[n..];
      ChunksLaws(rest, chunkSize);
      CeilDivStep(|block|, chunkSize);
      ConcatConcat([first], Chunks(rest, chunkSize));
      ConcatSnoc([], first);
      assert [] + [first] == [first];
      assert first + rest == block;
      CutCons(first, Chunks(rest, chunkSize), chunkSize);
    }
  }

  lemma CutCons(first: Bytes, rest: seq<Bytes>, size: nat)
    requires Cut(rest, size) && 0 < |first| <= size && (|first| == size || rest == [])
    ensures Cut([first] + rest, size)
  {
  }

  lemma CeilDivZero(b: nat)
    requires b > 0
    ensures CeilDiv(0, b) == 0
  {
    DivUnique(b - 1, b, 0);
  }

  lemma CeilDivStep(a: nat, b: nat)
    requires b > 0 && a > 0
    ensures CeilDiv(a, b) == 1 + CeilDiv(a - Min(b, a), b)
  {
    if a <= b {
      DivUnique(a + b - 1, b, 1);
      CeilDivZero(b);
    } else {
      var q, r := (a - 1) / b, (a - 1) % b;
      assert a - 1 == q * b + r;
      DivUnique(a + b - 1, b, q + 1);
    }
  }

  /** Cutting a file into blocks.  The size check never fails; the only way out is a last block of partial values. */
  method SplitFileIntoBlocks(file: Bytes, blockSize: nat) returns (r: Result<seq<Bytes>>)
    requires blockSize > 0
    ensures r.Ok? ==> r.value == Chunks(file, blockSize) && Concat(r.value) == file && Cut(r.value, blockSize)
    ensures blockSize % 4 == 0 ==> (r.Ok? <==> |file| % 4 == 0)
  {
    hide Concat, Cut, Chunks, CeilDiv, SameRest, CutSoFar;
    var blocks: seq<Bytes> := [];
    var left := |file|;
    NothingCut(file, blockSize);
    RestLaws(left, |file|, blockSize);
    while left > blockSize
      invariant 0 <= left <= |file| && (left == 0 ==> |file| == 0)
      invariant CutSoFar(blocks, file, |file| - left, blockSize)
      invariant SameRest(left, |file|, blockSize)
    {
      var from := |file| - left;
      CutNext(blocks, file, from, blockSize);
      RestLaws(left, |file|, blockSize);
      blocks := blocks + [file[from..from + blockSize]];
      left := left - blockSize;
    }
    RestLaws(left, |file|, blockSize);
    if left > 0 {
      if left % 4 != 0 {
        return Fatal;
      }
      CutNext(blocks, file, |file| - left, blockSize);
      blocks := blocks + [file[|file| - left..]];
    }
    AllCut(blocks, file, blockSize);
    var total := TotalSize(blocks);
    if total != |file| {
      return Fatal;
    }
    return Ok(blocks);
  }

  /** The blocks cut so far are those of the file up to `at`. */
  ghost predicate CutSoFar(blocks: seq<Bytes>, file: Bytes, at: nat, size: nat)
    requires size > 0
  {
    at <= |file| && blocks + Chunks(file[at..], size) == Chunks(file, size)
  }

  lemma NothingCut(file: Bytes, size: nat)
    requires size > 0
    ensures CutSoFar([], file, 0, size)
  {
    hide Chunks;
    assert file[0..] == file;
  }

  lemma CutNext(blocks: seq<Bytes>, file: Bytes, at: nat, size: nat)
    requires size > 0 && at < |file| && CutSoFar(blocks, file, at, size)
    ensures at + size <= |file| ==> CutSoFar(blocks + [file[at..at + size]], file, at + size, size)
    ensures at + size >= |file| ==> CutSoFar(blocks + [file[at..]], file, |file|, size)
  {
    hide Chunks;
    ChunksStep(file, at, size);
    var end := Min(at + size, |file|);
    var rest := Chunks(file[end..], size);
    assert blocks + ([file[at..end]] + rest) == (blocks + [file[at..end]]) + rest;
    assert file[at..|file|] == file[at..];
  }

  lemma AllCut(blocks: seq<Bytes>, file: Bytes, size: nat)
    requires size > 0 && CutSoFar(blocks, file, |file|, size)
    ensures blocks == Chunks(file, size) && Concat(blocks) == file && Cut(blocks, size)
  {
    hide Concat, Cut, CeilDiv;
    assert file[|file|..] == [];
    ChunksLaws(file, size);
  }

  /** Taking whole blocks off a file leaves the same partial value. */
  predicate SameRest(left: nat, total: nat, blockSize: nat) {
    blockSize % 4 == 0 ==> left % 4 == total % 4
  }

  lemma RestLaws(left: nat, total: nat, blockSize: nat)
    ensures SameRest(total, total, blockSize)
    ensures SameRest(left, total, blockSize) && left >= blockSize ==> SameRest(left - blockSize, total, blockSize)
    ensures SameRest(left, total, blockSize) && blockSize % 4 == 0 ==> (left % 4 == 0 <==> total % 4 == 0)
  {
  }

  method TotalSize(blocks: seq<Bytes>) returns (total: nat)
    ensures total == |Concat(blocks)|
  {
    total := 0;
    var k := 0;
    while k < |blocks|
      invariant 0 <= k <= |blocks| && total == |Concat(blocks[..k])|
    {
      assert blocks[..k + 1] == blocks[..k] + [blocks[k]];
      ConcatSnoc(blocks[..k], blocks[k]);
      total := total + |blocks[k]|;
      k := k + 1;
    }
    assert blocks[..k] == blocks;
  }

  // ----- one output file

  datatype DataFile = DataFile(
    bytes: Bytes,
    numBlocks: nat,
    blockSizes: seq<nat>,
    blockOffsets: seq<nat>,
    valueCounts: seq<nat>)

  /** Bytes written after a block so that the next one starts on the alignment. */
  function PaddingSize(size: nat): nat {
    if size % ALIGNMENT != 0 then ALIGNMENT - size % ALIGNMENT else 0
  }

  function Padding(size: nat, pad: byte): Bytes {
    seq(PaddingSize(size), _ => pad)
  }

  /** A block as it is written: its payload, and how many values it decodes to. */
  datatype Block = Block(payload: Bytes, values: nat)

  /** The file that holds `blocks` in order, each padded to the alignment. */
  function Pack(blocks: seq<Block>, pad: byte): DataFile
    decreases blocks
  {
    if blocks == [] then DataFile([], 0, [], [], [])
    else
      var f, last := Pack(blocks[..|blocks| - 1], pad), blocks[|blocks| - 1];
      DataFile(
        f.bytes + last.payload + Padding(|last.payload|, pad),
        f.numBlocks + 1,
        f.blockSizes + [|last.payload|],
        f.blockOffsets + [|f.bytes|],
        f.valueCounts + [last.values])
  }

  /** Bytes that some blocks take with their padding. */
  function PaddedSizes(blocks: seq<Block>): nat
    decreases blocks
  {
    if blocks == [] then 0
    else
      var size := |blocks[|blocks| - 1].payload|;
      PaddedSizes(blocks[..|blocks| - 1]) + size + PaddingSize(size)
  }

  lemma {:induction false} PackSize(blocks: seq<Block>, pad: byte)
    ensures |Pack(blocks, pad).bytes| == PaddedSizes(blocks)
    decreases blocks
  {
    hide Padding, PaddingSize;
    if blocks != [] {
      PackSize(blocks[..|blocks| - 1], pad);
      PadBytes(|blocks[|blocks| - 1].payload|, pad);
    }
  }

  /** Where the padding of the last block ends. */
  function PackedEnd(f: DataFile): nat {
    var n := |f.blockSizes|;
    if n == 0 || n > |f.blockOffsets| then 0
    else f.blockOffsets[n - 1] + f.blockSizes[n - 1] + PaddingSize(f.blockSizes[n - 1])
  }

  /** Block `k` starts on the alignment, lies inside the file, and is followed by the next one after its padding. */
  predicate BlockPlaced(f: DataFile, k: nat) {
    && k < |f.blockSizes| && k < |f.blockOffsets|
    && f.blockOffsets[k] % ALIGNMENT == 0
    && f.blockOffsets[k] + f.blockSizes[k] <= |f.bytes|
    && (k + 1 < |f.blockOffsets| ==> f.blockOffsets[k] + f.blockSizes[k] + PaddingSize(f.blockSizes[k]) == f.blockOffsets[k + 1])
  }

  /** The metadata describe as many blocks as are there, from the start of the file, inside it and on the alignment. */
  ghost predicate Located(f: DataFile) {
    && f.numBlocks == |f.blockSizes| == |f.blockOffsets| == |f.valueCounts|
    && (forall k :: 0 <= k < |f.blockSizes| ==> BlockPlaced(f, k))
    && (f.blockSizes != [] ==> f.blockOffsets[0] == 0)
    && PackedEnd(f) % ALIGNMENT == 0 && PackedEnd(f) <= |f.bytes|
  }

  /** The padded blocks tile the whole file. */
  ghost predicate Consistent(f: DataFile) {
    Located(f) && PackedEnd(f) == |f.bytes|
  }

  /** The k-th block, as a reader finds it through the metadata. */
  function ReadBlock(f: DataFile, k: nat): Bytes
    requires Located(f) && k < |f.blockSizes|
  {
    assert BlockPlaced(f, k);
    f.bytes[f.blockOffsets[k]..f.blockOffsets[k] + f.blockSizes[k]]
  }

  lemma PaddedSize(size: nat)
    ensures (size + PaddingSize(size)) % ALIGNMENT == 0
    ensures PaddingSize(size) < ALIGNMENT
  {
  }

  /** A packed file is consistent, and its blocks read back in order with nothing between them but padding. */
  lemma {:induction false} PackReads(blocks: seq<Block>, pad: byte)
    ensures var f := Pack(blocks, pad);
            && Consistent(f) && |f.blockSizes| == |blocks|
            && (forall k :: 0 <= k < |blocks| ==> ReadBlock(f, k) == blocks[k].payload)
            && (forall k :: 0 <= k < |blocks| ==> f.valueCounts[k] == blocks[k].values)
    decreases blocks
  {
    hide Located, ReadBlock, Padding, PaddingSize, PackedEnd;
    if blocks == [] {
      NothingPacked();
    } else {
      var init, last := blocks[..|blocks| - 1], blocks[|blocks| - 1];
      var f, g := Pack(init, pad), Pack(blocks, pad);
      PackReads(init, pad);
      PadBytes(|last.payload|, pad);
      MetadataLengths(f);
      SnocConsistent(f, g, |last.payload|, last.values);
      var tail := last.payload + Padding(|last.payload|, pad);
      assert g.bytes == f.bytes + tail;
      forall k | 0 <= k < |blocks|
        ensures ReadBlock(g, k) == blocks[k].payload && g.valueCounts[k] == blocks[k].values
      {
        if k < |init| {
          KeptBlock(f, g, tail, k);
        } else {
          AddedBlock(f, g, tail, last.payload);
        }
      }
    }
  }

  // ----- writing over an older file

  /** What a file holds after `data` is written at `pos`; bytes behind that stay. */
  function WriteAt(content: Bytes, pos: nat, data: Bytes): Bytes
    requires pos <= |content|
  {
    content[..pos] + data + content[Min(pos + |data|, |content|)..]
  }

  /** What a file that held `was` holds after `written` was written from its start. */
  function Over(written: Bytes, was: Bytes): Bytes {
    written + was[Min(|written|, |was|)..]
  }

  lemma WriteAtEnd(content: Bytes, data: Bytes)
    ensures WriteAt(content, |content|, data) == content + data
  {
  }

  lemma WriteAtNext(content: Bytes, pos: nat, a: Bytes, b: Bytes)
    requires pos <= |content|
    ensures pos + |a| <= |WriteAt(content, pos, a)|
    ensures WriteAt(WriteAt(content, pos, a), pos + |a|, b) == WriteAt(content, pos, a + b)
  {
    var c := WriteAt(content, pos, a);
    assert c[..pos + |a|] == content[..pos] + a;
    assert c[Min(pos + |a| + |b|, |c|)..] == content[Min(pos + |a| + |b|, |content|)..];
    assert content[..pos] + a + b == content[..pos] + (a + b);
  }

  lemma WriteOver(written: Bytes, was: Bytes, data: Bytes)
    ensures |written| <= |Over(written, was)|
    ensures WriteAt(Over(written, was), |written|, data) == Over(written + data, was)
  {
    var c := Over(written, was);
    assert c[..|written|] == written;
    assert c[Min(|written| + |data|, |c|)..] == was[Min(|written| + |data|, |was|)..];
  }

  function OverFile(f: DataFile, was: Bytes): DataFile {
    f.(bytes := Over(f.bytes, was))
  }

  /** Over any older file the blocks are still found and read back; they tile the file exactly if the older one was not longer. */
  lemma {:induction false} OverReads(f: DataFile, was: Bytes)
    requires Consistent(f)
    ensures var g := OverFile(f, was);
            && Located(g) && PackedEnd(g) == |f.bytes|
            && (forall k :: 0 <= k < |f.blockSizes| ==> ReadBlock(g, k) == ReadBlock(f, k))
            && (Consistent(g) <==> |was| <= |f.bytes|)
  {
    hide PaddingSize;
    var g := OverFile(f, was);
    forall k | 0 <= k < |g.blockSizes| ensures BlockPlaced(g, k) {
      assert BlockPlaced(f, k);
    }
    forall k | 0 <= k < |f.blockSizes| ensures ReadBlock(g, k) == ReadBlock(f, k) {
      KeptBlock(f, g, was[Min(|f.bytes|, |was|)..], k);
    }
  }

  lemma NothingPacked()
    ensures Consistent(DataFile([], 0, [], [], []))
  {
  }

  lemma MetadataLengths(f: DataFile)
    requires Consistent(f)
    ensures f.numBlocks == |f.blockSizes| == |f.blockOffsets| == |f.valueCounts|
  {
  }

  lemma PadBytes(size: nat, pad: byte)
    ensures |Padding(size, pad)| == PaddingSize(size)
  {
  }

  lemma AddedBlock(f: DataFile, g: DataFile, tail: Bytes, payload: Bytes)
    requires Located(g) && |g.blockSizes| == |f.blockSizes| + 1
    requires g.bytes == f.bytes + tail && payload <= tail
    requires g.blockOffsets[|f.blockSizes|] == |f.bytes| && g.blockSizes[|f.blockSizes|] == |payload|
    ensures ReadBlock(g, |f.blockSizes|) == payload
  {
    hide Located;
    assert g.bytes[|f.bytes|..|f.bytes| + |payload|] == tail[..|payload|];
  }

  lemma KeptBlock(f: DataFile, g: DataFile, tail: Bytes, k: nat)
    requires Located(f) && Located(g) && k < |f.blockSizes| <= |g.blockSizes|
    requires g.bytes == f.bytes + tail
    requires g.blockOffsets[k] == f.blockOffsets[k] && g.blockSizes[k] == f.blockSizes[k]
    ensures ReadBlock(g, k) == ReadBlock(f, k)
  {
    assert BlockPlaced(f, k);
  }

  lemma {:induction false} SnocConsistent(f: DataFile, g: DataFile, size: nat, values: nat)
    requires Consistent(f)
    requires |g.bytes| == |f.bytes| + size + PaddingSize(size) && g.numBlocks == f.numBlocks + 1
    requires g.blockSizes == f.blockSizes + [size] && g.blockOffsets == f.blockOffsets + [|f.bytes|]
    requires g.valueCounts == f.valueCounts + [values]
    ensures Consistent(g)
  {
    hide PaddingSize;
    PaddedSize(size);
    var n := |f.blockSizes|;
    forall k | 0 <= k < |g.blockSizes| ensures BlockPlaced(g, k) {
      if k < n {
        assert BlockPlaced(f, k);
        if k == n - 1 { assert PackedEnd(f) == |f.bytes|; }
      } else {
        assert g.blockOffsets[k] == |f.bytes| && g.blockSizes[k] == size;
      }
    }
  }

  /** All blocks of a file, in order. */
  function ReadBlocks(f: DataFile): seq<Bytes>
    requires Consistent(f)
  {
    seq(|f.blockSizes|, k requires 0 <= k < |f.blockSizes| => ReadBlock(f, k))
  }

  // ----- dealing the blocks out to files

  /** Index of the first block of file `i`. */
  function FirstBlock(perFile: nat, i: nat, total: nat): nat {
    Min(i * perFile, total)
  }

  lemma FirstBlockLaws(perFile: nat, i: nat, total: nat)
    ensures FirstBlock(perFile, 0, total) == 0
    ensures FirstBlock(perFile, i, total) <= FirstBlock(perFile, i + 1, total) <= total
    ensures FirstBlock(perFile, i + 1, total) == Min(i * perFile + perFile, total)
  {
    assert (i + 1) * perFile == i * perFile + perFile;
  }

  lemma LastBlockLaw(total: nat, files: nat)
    requires files > 0
    ensures FirstBlock(CeilDiv(total, files), files, total) == total
  {
    var n := total + files - 1;
    assert n == n / files * files + n % files;
  }

  /** The blocks of file `i`. */
  function FileSlice<T>(blocks: seq<T>, files: nat, i: nat): seq<T>
    requires files > 0
  {
    var per := CeilDiv(|blocks|, files);
    FirstBlockLaws(per, i, |blocks|);
    blocks[FirstBlock(per, i, |blocks|)..FirstBlock(per, i + 1, |blocks|)]
  }

  /** The blocks of the first `n` files, in file order. */
  function Dealt<T>(blocks: seq<T>, files: nat, n: nat): seq<T>
    requires files > 0
  {
    if n == 0 then [] else Dealt(blocks, files, n - 1) + FileSlice(blocks, files, n - 1)
  }

  lemma {:induction false} DealtPrefix<T>(blocks: seq<T>, files: nat, n: nat)
    requires files > 0
    ensures FirstBlock(CeilDiv(|blocks|, files), n, |blocks|) <= |blocks|
    ensures Dealt(blocks, files, n) == blocks[..FirstBlock(CeilDiv(|blocks|, files), n, |blocks|)]
  {
    hide FirstBlock, CeilDiv;
    var per := CeilDiv(|blocks|, files);
    FirstBlockLaws(per, n, |blocks|);
    if n > 0 {
      DealtPrefix(blocks, files, n - 1);
      FirstBlockLaws(per, n - 1, |blocks|);
      var a, b := FirstBlock(per, n - 1, |blocks|), FirstBlock(per, n, |blocks|);
      assert blocks[..a] + blocks[a..b] == blocks[..b];
    }
  }

  /** Every block goes to exactly one file, in order. */
  lemma {:induction false} DealtAll<T>(blocks: seq<T>, files: nat)
    requires files > 0
    ensures Dealt(blocks, files, files) == blocks
  {
    hide FirstBlock, CeilDiv, Dealt;
    DealtPrefix(blocks, files, files);
    LastBlockLaw(|blocks|, files);
    assert blocks[..|blocks|] == blocks;
  }

  predicate EnoughEach(q: nat, files: nat, total: nat) { q * files >= total }

  /**
    No file gets more blocks than are enough for each, and one that another follows gets enough: so files
    are filled one after the other with the least number that lets them hold all.
   */
  ghost predicate EvenlySpread(counts: seq<nat>, total: nat) {
    forall i :: 0 <= i < |counts| ==>
      && (forall q: nat :: EnoughEach(q, |counts|, total) ==> counts[i] <= q)
      && (i + 1 < |counts| && counts[i + 1] > 0 ==> EnoughEach(counts[i], |counts|, total))
  }

  lemma DealtEvenly<T>(blocks: seq<T>, files: nat, counts: seq<nat>)
    requires files > 0 && |counts| == files
    requires forall i :: 0 <= i < files ==> counts[i] == |FileSlice(blocks, files, i)|
    ensures EvenlySpread(counts, |blocks|)
  {
    hide FileSlice, CeilDiv, EnoughEach;
    forall i | 0 <= i < files
      ensures forall q: nat :: EnoughEach(q, files, |blocks|) ==> counts[i] <= q
      ensures i + 1 < files && counts[i + 1] > 0 ==> EnoughEach(counts[i], files, |blocks|)
    {
      SliceSizes(blocks, files, i);
      forall q: nat | EnoughEach(q, files, |blocks|) ensures counts[i] <= q {
        PerFileLeast(|blocks|, files, q);
      }
      PerFileEnough(|blocks|, files);
    }
  }

  lemma SliceSizes<T>(blocks: seq<T>, files: nat, i: nat)
    requires files > 0
    ensures |FileSlice(blocks, files, i)| <= CeilDiv(|blocks|, files)
    ensures |FileSlice(blocks, files, i + 1)| > 0 ==> |FileSlice(blocks, files, i)| == CeilDiv(|blocks|, files)
  {
    hide CeilDiv;
    var per := CeilDiv(|blocks|, files);
    FirstBlockLaws(per, i, |blocks|);
    FirstBlockLaws(per, i + 1, |blocks|);
  }

  lemma PerFileEnough(total: nat, files: nat)
    requires files > 0
    ensures EnoughEach(CeilDiv(total, files), files, total)
  {
    var n := total + files - 1;
    assert n == n / files * files + n % files;
  }

  lemma PerFileLeast(total: nat, files: nat, q: nat)
    requires files > 0 && EnoughEach(q, files, total)
    ensures CeilDiv(total, files) <= q
  {
    var n := total + files - 1;
    var p := n / files;
    assert n == p * files + n % files;
    MulOrder(q + 1, p, files);
    MulStep(files, q + 1);
  }

  /** With more files than blocks there is none left for the last. */
  lemma LastSliceEmpty<T>(blocks: seq<T>, files: nat)
    requires files > |blocks|
    ensures FileSlice(blocks, files, files - 1) == []
  {
    var per := CeilDiv(|blocks|, files);
    DivUnique(|blocks| + files - 1, files, if blocks == [] then 0 else 1);
    FirstBlockLaws(per, files - 1, |blocks|);
  }

  // ----- writing uncompressed blocks

  function Plain(block: Bytes): Block { Block(block, |block| / 4) }

  function PlainAll(blocks: seq<Bytes>): seq<Block> {
    seq(|blocks|, k requires 0 <= k < |blocks| => Plain(blocks[k]))
  }

  predicate WholeValues(block: Bytes) { |block| % 4 == 0 }

  /** Writes the padding after a block of some size one byte at a time, from `pos` on. */
  method WritePadding(content: Bytes, pos: nat, size: nat, pad: byte) returns (out: Bytes, written: nat)
    requires pos <= |content|
    ensures out == WriteAt(content, pos, Padding(size, pad)) && written == PaddingSize(size)
  {
    hide WriteAt;
    out, written := content, 0;
    WriteNothing(content, pos);
    if size % ALIGNMENT != 0 {
      assert seq(0, _ => pad) == [];
      while written < ALIGNMENT - size % ALIGNMENT
        invariant 0 <= written <= ALIGNMENT - size % ALIGNMENT && pos + written <= |out|
        invariant out == WriteAt(content, pos, seq(written, _ => pad))
      {
        ghost var before := seq(written, _ => pad);
        WriteAtNext(content, pos, before, [pad]);
        assert before + [pad] == seq(written + 1, _ => pad);
        WriteAtNext(content, pos, before + [pad], []);
        out, written := WriteAt(out, pos + written, [pad]), written + 1;
      }
    }
    assert Padding(size, pad) == seq(written, _ => pad);
    if written == 0 { assert Padding(size, pad) == []; }
  }

  lemma WriteNothing(content: Bytes, pos: nat)
    requires pos <= |content|
    ensures WriteAt(content, pos, []) == content
  {
  }

  method WriteUncompressedFile(blocks: seq<Bytes>) returns (r: Result<DataFile>)
    ensures r.Ok? <==> forall b :: b in blocks ==> WholeValues(b)
    ensures r.Ok? ==> r.value == Pack(PlainAll(blocks), 0)
  {
    hide WriteAt, Padding, PaddingSize;
    var bytes: Bytes, sizes: seq<nat>, offsets: seq<nat>, counts: seq<nat> := [], [], [], [];
    var numBlocks, offset := 0, 0;
    var j := 0;
    while j < |blocks|
      invariant 0 <= j <= |blocks| && offset == |bytes|
      invariant forall b :: b in blocks[..j] ==> WholeValues(b)
      invariant DataFile(bytes, numBlocks, sizes, offsets, counts) == Pack(PlainAll(blocks[..j]), 0)
    {
      var block := blocks[j];
      PackPlainSnoc(blocks, j);
      bytes := bytes + block;
      numBlocks := numBlocks + 1;
      sizes := sizes + [|block|];
      offsets := offsets + [offset];
      if |block| % 4 != 0 {
        assert block in blocks && !WholeValues(block);
        return Fatal;
      }
      counts := counts + [|block| / 4];
      var written;
      WriteAtEnd(bytes, Padding(|block|, 0));
      bytes, written := WritePadding(bytes, |bytes|, |block|, 0);
      PadBytes(|block|, 0);
      offset := offset + written + |block|;
      assert blocks[..j + 1] == blocks[..j] + [block];
      j := j + 1;
    }
    assert blocks[..j] == blocks;
    return Ok(DataFile(bytes, numBlocks, sizes, offsets, counts));
  }

  lemma PackPlainSnoc(blocks: seq<Bytes>, j: nat)
    requires j < |blocks|
    ensures var all := PlainAll(blocks[..j + 1]);
            all != [] && all[..j] == PlainAll(blocks[..j]) && all[j] == Plain(blocks[j]) && |all| == j + 1
  {
    var all := PlainAll(blocks[..j + 1]);
    assert all[..j] == PlainAll(blocks[..j]);
  }

  method WriteUncompressedChunksToFiles(blocks: seq<Bytes>, numFiles: nat) returns (r: Result<seq<DataFile>>)
    requires numFiles > 0
    ensures r.Ok? <==> forall b :: b in blocks ==> WholeValues(b)
    ensures r.Ok? ==> |r.value| == numFiles
    ensures r.Ok? ==> forall i :: 0 <= i < numFiles ==> r.value[i] == Pack(PlainAll(FileSlice(blocks, numFiles, i)), 0)
  {
    hide Pack, PlainAll, FileSlice, WholeValues;
    var files: seq<DataFile> := [];
    var i := 0;
    while i < numFiles
      invariant 0 <= i <= numFiles && |files| == i
      invariant forall k :: 0 <= k < i ==> files[k] == Pack(PlainAll(FileSlice(blocks, numFiles, k)), 0)
      invariant forall b :: b in Dealt(blocks, numFiles, i) ==> WholeValues(b)
    {
      var file := WriteUncompressedFile(FileSlice(blocks, numFiles, i));
      DealtAll(blocks, numFiles);
      SliceInside(blocks, numFiles, i);
      if file.Fatal? {
        return Fatal;
      }
      files := files + [file.value];
      i := i + 1;
    }
    DealtAll(blocks, numFiles);
    return Ok(files);
  }

  lemma SliceInside<T>(blocks: seq<T>, files: nat, i: nat)
    requires files > 0
    ensures forall b :: b in FileSlice(blocks, files, i) ==> b in blocks
  {
  }

  // ----- reading uncompressed files back

  ghost predicate AllConsistent(files: seq<DataFile>) {
    forall i :: 0 <= i < |files| ==> Consistent(files[i])
  }

  /** The blocks of all files, in file order. */
  function AllBlocks(files: seq<DataFile>): seq<Bytes>
    requires AllConsistent(files)
    decreases files
  {
    if files == [] then [] else AllBlocks(files[..|files| - 1]) + ReadBlocks(files[|files| - 1])
  }

  function AllCounts(files: seq<DataFile>): seq<nat>
    decreases files
  {
    if files == [] then [] else AllCounts(files[..|files| - 1]) + files[|files| - 1].valueCounts
  }

  function Payloads(blocks: seq<Block>): seq<Bytes> {
    seq(|blocks|, k requires 0 <= k < |blocks| => blocks[k].payload)
  }

  function Values(blocks: seq<Block>): seq<nat> {
    seq(|blocks|, k requires 0 <= k < |blocks| => blocks[k].values)
  }

  /** Files packed from consecutive slices read back as all the blocks, each exactly once and in order. */
  lemma {:induction false} FilesRead(blocks: seq<Block>, numFiles: nat, files: seq<DataFile>, pad: byte)
    requires numFiles > 0 && |files| <= numFiles
    requires forall i :: 0 <= i < |files| ==> files[i] == Pack(FileSlice(blocks, numFiles, i), pad)
    ensures AllConsistent(files)
    ensures AllBlocks(files) == Payloads(Dealt(blocks, numFiles, |files|))
    ensures AllCounts(files) == Values(Dealt(blocks, numFiles, |files|))
    decreases |files|
  {
    hide FileSlice, Pack, ReadBlocks, Payloads, Values, Consistent;
    NoPayloads();
    if files != [] {
      var n := |files| - 1;
      var slice := FileSlice(blocks, numFiles, n);
      FilesRead(blocks, numFiles, files[..n], pad);
      PackReadsAll(slice, pad);
      PayloadsConcat(Dealt(blocks, numFiles, n), slice);
    }
  }

  lemma PackReadsAll(blocks: seq<Block>, pad: byte)
    ensures var f := Pack(blocks, pad);
            Consistent(f) && ReadBlocks(f) == Payloads(blocks) && f.valueCounts == Values(blocks)
  {
    hide Pack, ReadBlock;
    PackReads(blocks, pad);
  }

  lemma NoPayloads()
    ensures Payloads([]) == [] && Values([]) == []
  {
  }

  lemma PayloadsConcat(a: seq<Block>, b: seq<Block>)
    ensures Payloads(a + b) == Payloads(a) + Payloads(b)
    ensures Values(a + b) == Values(a) + Values(b)
  {
  }

  lemma {:induction false} CountsSum(blocks: seq<Bytes>)
    requires forall b :: b in blocks ==> WholeValues(b)
    ensures 4 * Sum(Values(PlainAll(blocks))) == |Concat(blocks)|
    decreases blocks
  {
    if blocks != [] {
      var init := blocks[..|blocks| - 1];
      CountsSum(init);
      var counts := Values(PlainAll(blocks));
      assert counts[..|blocks| - 1] == Values(PlainAll(init));
      assert blocks[|blocks| - 1] in blocks;
    }
  }

  lemma CountsEach(blocks: seq<Bytes>)
    requires forall b :: b in blocks ==> WholeValues(b)
    ensures var counts := Values(PlainAll(blocks));
            |counts| == |blocks| && forall k :: 0 <= k < |blocks| ==> 4 * counts[k] == |blocks[k]|
  {
    forall k | 0 <= k < |blocks| ensures 4 * Values(PlainAll(blocks))[k] == |blocks[k]| {
      assert blocks[k] in blocks;
    }
  }

  function BlockCounts(files: seq<DataFile>): seq<nat> {
    seq(|files|, i requires 0 <= i < |files| => |files[i].blockSizes|)
  }

  /** Each value count is that of its block. */
  predicate CountsFit(counts: seq<nat>, blocks: seq<Bytes>) {
    |counts| == |blocks| && forall k :: 0 <= k < |blocks| ==> 4 * counts[k] == |blocks[k]|
  }

  const BLOCK_SIZE: nat := 2 * 1024 * 1024
  const CHUNK_SIZE: nat := 16 * 1024

  /**
    The tool without compression: it succeeds exactly on whole 4-byte values, the files' metadata
    are consistent, their blocks in file order are the file, and the value counts add up.
   */
  method PartitionUncompressed(file: Bytes, numFiles: nat) returns (r: Result<seq<DataFile>>)
    requires numFiles > 0
    ensures r.Ok? <==> |file| % 4 == 0
    ensures r.Ok? ==>
              && |r.value| == numFiles && AllConsistent(r.value)
              && Concat(AllBlocks(r.value)) == file
              && Cut(AllBlocks(r.value), 2 * 1024 * 1024)
              && (forall i, k :: 0 <= i < numFiles && 0 <= k < |r.value[i].blockOffsets| ==>
                    r.value[i].blockOffsets[k] % 4096 == 0)
              && 4 * Sum(AllCounts(r.value)) == |file|
              && CountsFit(AllCounts(r.value), AllBlocks(r.value))
              && EvenlySpread(BlockCounts(r.value), |AllBlocks(r.value)|)
  {
    hide EvenlySpread, CountsFit, BlockCounts;
    hide AllBlocks, AllCounts, Consistent, Concat, Pack, FileSlice, PlainAll, Sum, Payloads, Values;
    var blocks := SplitFileIntoBlocks(file, BLOCK_SIZE);
    if blocks.Fatal? {
      return Fatal;
    }
    BlocksWhole(blocks.value, BLOCK_SIZE);
    r := WriteUncompressedChunksToFiles(blocks.value, numFiles);
    PlainSlices(blocks.value, numFiles);
    FilesRead(PlainAll(blocks.value), numFiles, r.value, 0);
    DealtAll(PlainAll(blocks.value), numFiles);
    PlainPayloads(blocks.value);
    CountsSum(blocks.value);
    PlainCounts(blocks.value);
    FilesSpread(PlainAll(blocks.value), numFiles, r.value, 0);
    forall i, k | 0 <= i < numFiles && 0 <= k < |r.value[i].blockOffsets|
      ensures r.value[i].blockOffsets[k] % 4096 == 0
    {
      ConsistentAligned(r.value[i], k);
    }
  }

  lemma ConsistentAligned(f: DataFile, k: nat)
    requires Consistent(f) && k < |f.blockOffsets|
    ensures f.blockOffsets[k] % 4096 == 0
  {
    hide Located;
    OffsetsAligned(f, k);
  }

  lemma OffsetsAligned(f: DataFile, k: nat)
    requires Located(f) && k < |f.blockOffsets|
    ensures f.blockOffsets[k] % 4096 == 0
  {
    assert BlockPlaced(f, k);
  }

  lemma PlainCounts(blocks: seq<Bytes>)
    requires forall b :: b in blocks ==> WholeValues(b)
    ensures CountsFit(Values(PlainAll(blocks)), blocks) && |PlainAll(blocks)| == |blocks|
  {
    hide PlainAll, Values;
    CountsEach(blocks);
    PlainLength(blocks);
  }

  lemma PlainLength(blocks: seq<Bytes>)
    ensures |PlainAll(blocks)| == |blocks|
  {
  }

  lemma FilesSpread(blocks: seq<Block>, numFiles: nat, files: seq<DataFile>, pad: byte)
    requires numFiles > 0 && |files| == numFiles
    requires forall i :: 0 <= i < |files| ==> files[i].blockSizes == Pack(FileSlice(blocks, numFiles, i), pad).blockSizes
    ensures EvenlySpread(BlockCounts(files), |blocks|)
  {
    hide FileSlice, Pack, EvenlySpread, Consistent;
    forall i | 0 <= i < numFiles ensures BlockCounts(files)[i] == |FileSlice(blocks, numFiles, i)| {
      PackReads(FileSlice(blocks, numFiles, i), pad);
    }
    DealtEvenly(blocks, numFiles, BlockCounts(files));
  }

  lemma PlainPayloads(blocks: seq<Bytes>)
    ensures Payloads(PlainAll(blocks)) == blocks
  {
  }

  lemma PlainSlices(blocks: seq<Bytes>, numFiles: nat)
    requires numFiles > 0
    ensures forall i: nat :: PlainAll(FileSlice(blocks, numFiles, i)) == FileSlice(PlainAll(blocks), numFiles, i)
  {
    forall i: nat ensures PlainAll(FileSlice(blocks, numFiles, i)) == FileSlice(PlainAll(blocks), numFiles, i) {
      FirstBlockLaws(CeilDiv(|blocks|, numFiles), i, |blocks|);
    }
  }

  lemma {:induction false} BlocksWhole(blocks: seq<Bytes>, size: nat)
    requires Cut(blocks, size) && size % 4 == 0 && |Concat(blocks)| % 4 == 0
    ensures forall b :: b in blocks ==> WholeValues(b)
    decreases blocks
  {
    if blocks != [] {
      var init := blocks[..|blocks| - 1];
      FullBlocks(init, size);
      assert forall b :: b in blocks ==> b in init || b == blocks[|blocks| - 1];
    }
  }

  lemma {:induction false} FullBlocks(blocks: seq<Bytes>, size: nat)
    requires forall i :: 0 <= i < |blocks| ==> |blocks[i]| == size
    requires size % 4 == 0
    ensures |Concat(blocks)| % 4 == 0
    decreases blocks
  {
    if blocks != [] { FullBlocks(blocks[..|blocks| - 1], size); }
  }
}

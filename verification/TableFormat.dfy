/**
 Framing of table blocks: contents (possibly compressed), a type byte, a masked checksum; and the
 random-access reads that get them back.

 The checksum and the compressor belong to other crates and are parameters: any function to 32 bits,
 and any pair of functions of which the second undoes the first.
 */
module TableFormat {
  import opened Bytes
  import opened Codec
  import opened Bloom
  import opened Seqs

  datatype Compression = NoCompression | Snappy

  datatype Options = Options(
    blockSize: nat,
    restartInterval: nat,
    policy: BloomPolicy,
    compression: Compression,
    crc: Bytes -> bv32,
    compress: Bytes -> Bytes,
    decompress: Bytes -> Option<Bytes>)
  {
    ghost predicate Valid() {
      && blockSize >= 8
      && restartInterval >= 1
      && policy.Valid()
      && (forall b :: decompress(compress(b)) == Some(b))
    }
  }

  // ---------- checksums ----------

  const MASK_DELTA: bv32 := 0xa282ead8

  function MaskCrc(c: bv32): bv32 {
    ((c >> 15) | (c << 17)) + MASK_DELTA
  }

  function UnmaskCrc(mc: bv32): bv32 {
    var rot := mc - MASK_DELTA;
    (rot >> 17) | (rot << 15)
  }

  lemma MaskRoundTrip(c: bv32)
    ensures UnmaskCrc(MaskCrc(c)) == c
  {
  }

  /** What a masked checksum is: the checksum's halves of 15 and 17 bits swapped, and a constant added. */
  lemma MaskMeaning(hi: bv32, lo: bv32)
    requires hi < 0x20000 && lo < 0x8000
    ensures MaskCrc(hi * 0x8000 + lo) == lo * 0x20000 + hi + 0xa282ead8
  {
  }

  function ToWord(c: bv32): (n: nat)
    ensures n < U32
  {
    c as int
  }

  function FromWord(n: nat): bv32
    requires n < U32
  {
    n as bv32
  }

  lemma WordRoundTrip(c: bv32)
    ensures FromWord(ToWord(c)) == c
  {
  }

  // ---------- writing a block ----------

  function TypeByte(c: Compression): byte {
    if c.Snappy? then 1 else 0
  }

  /** `int_to_compressiontype`. */
  function TypeOf(b: byte): Option<Compression> {
    if b == 0 then Some(NoCompression) else if b == 1 then Some(Snappy) else None
  }

  function Packed(opt: Options, contents: Bytes, c: Compression): Bytes {
    if c.Snappy? then opt.compress(contents) else contents
  }

  /** A block as it may stand in a file: contents, type byte, masked checksum; any of them may be wrong. */
  function Stored(data: Bytes, t: byte, sum: bv32): (s: Bytes)
    ensures |s| == |data| + 5
  {
    data + [t] + EncodeFixed(ToWord(MaskCrc(sum)), 4)
  }

  /** What `write_block` sends to the sink. */
  function Frame(opt: Options, contents: Bytes, c: Compression): (s: Bytes)
    ensures |s| == |Packed(opt, contents, c)| + 5
  {
    var data := Packed(opt, contents, c);
    Stored(data, TypeByte(c), opt.crc(data + [TypeByte(c)]))
  }

  /** With Snappy the compressed contents and a 1, else the contents as they are and a 0; then the checksum of both. */
  lemma FrameLayout(opt: Options, contents: Bytes, c: Compression)
    ensures c == Snappy ==>
              Frame(opt, contents, c) == Stored(opt.compress(contents), 1, opt.crc(opt.compress(contents) + [1]))
    ensures c == NoCompression ==> Frame(opt, contents, c) == Stored(contents, 0, opt.crc(contents + [0]))
  {
  }

  // ---------- reading a block ----------

  /** `read_at` into a zeroed buffer of `n` bytes: short reads leave zeros. */
  function ReadAt(f: Bytes, off: nat, n: nat): (buf: Bytes)
    ensures |buf| == n
  {
    if off > |f| then seq(n, _ => 0)
    else
      var remaining := |f| - off;
      var toRead := if n > remaining then remaining else n;
      f[off..off + toRead] + seq(n - toRead, _ => 0)
  }

  lemma ReadWithin(pre: Bytes, m: Bytes, post: Bytes)
    ensures ReadAt(pre + m + post, |pre|, |m|) == m
  {
    SliceOfMiddle(pre, m, post, 0, |m|);
  }

  /** Byte by byte: what the file has there, and zeros behind its end. */
  lemma ReadAtByte(f: Bytes, off: nat, n: nat, k: nat)
    requires k < n
    ensures ReadAt(f, off, n)[k] == if off + k < |f| then f[off + k] else 0
  {
  }

  /** `verify_table_block`. */
  predicate Verify(opt: Options, data: Bytes, typeByte: byte, want: bv32) {
    opt.crc(data + [typeByte]) == want
  }

  /** `read_table_block`; the source then asserts that the contents are longer than four bytes. */
  function ReadTableBlock(opt: Options, f: Bytes, h: BlockHandle): Result<Bytes> {
    var buf := ReadAt(f, h.offset, h.size + 5);
    var data, typeByte, cksum := buf[..h.size], buf[h.size], buf[h.size + 1..];
    Decode32Bound(cksum);
    if !Verify(opt, data, typeByte, UnmaskCrc(FromWord(DecodeFixed(cksum)))) then Err(Corruption)
    else
      match TypeOf(typeByte)
      case None => Err(InvalidData)
      case Some(NoCompression) => Ok(data)
      case Some(Snappy) =>
        match opt.decompress(data)
        case None => Err(CompressionError)
        case Some(contents) => Ok(contents)
  }

  /**
   All that reading a stored block can give. A checksum that is not that of contents and type byte
   is `Corruption`, whatever they are; only then does the type byte count, and only a type byte of 1
   reaches the decompressor.
   */
  lemma ReadStored(opt: Options, pre: Bytes, data: Bytes, t: byte, sum: bv32, post: Bytes)
    ensures var r := ReadTableBlock(opt, pre + Stored(data, t, sum) + post, BlockHandle(|pre|, |data|));
            && (opt.crc(data + [t]) != sum ==> r == Err(Corruption))
            && (opt.crc(data + [t]) == sum && t == 0 ==> r == Ok(data))
            && (opt.crc(data + [t]) == sum && t == 1 && opt.decompress(data).None? ==> r == Err(CompressionError))
            && (opt.crc(data + [t]) == sum && t == 1 && opt.decompress(data).Some? ==>
                  r == Ok(opt.decompress(data).value))
            && (opt.crc(data + [t]) == sum && t > 1 ==> r == Err(InvalidData))
  {
    ReadWithin(pre, Stored(data, t, sum), post);
    StoredParts(data, t, sum);
    Fixed32RoundTrip(ToWord(MaskCrc(sum)));
    WordRoundTrip(MaskCrc(sum));
    MaskRoundTrip(sum);
    hide MaskCrc, UnmaskCrc, ToWord, FromWord, EncodeFixed, DecodeFixed, ReadAt, Stored;
  }

  lemma StoredParts(data: Bytes, t: byte, sum: bv32)
    ensures var s := Stored(data, t, sum);
            s[..|data|] == data && s[|data|] == t && s[|data| + 1..] == EncodeFixed(ToWord(MaskCrc(sum)), 4)
  {
    hide MaskCrc, ToWord, EncodeFixed;
  }

  /** A framed block reads back through its handle as the contents that were written. */
  lemma FrameReadsBack(opt: Options, pre: Bytes, contents: Bytes, c: Compression, post: Bytes)
    requires opt.Valid()
    ensures var f := pre + Frame(opt, contents, c) + post;
            ReadTableBlock(opt, f, BlockHandle(|pre|, |Packed(opt, contents, c)|)) == Ok(contents)
  {
    var data := Packed(opt, contents, c);
    ReadStored(opt, pre, data, TypeByte(c), opt.crc(data + [TypeByte(c)]), post);
    hide ReadTableBlock, Stored;
  }
}

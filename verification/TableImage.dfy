/**
 The bytes of a finished table and what is found in them.

 File layout: data blocks, filter block, metaindex block, index block, footer.
 */
module TableImage {
  import opened Bytes
  import opened Codec
  import opened Comparator
  import opened BlockFormat
  import opened Bloom
  import opened FilterBlock
  import opened TableFormat
  import opened Build

  /** The bytes of "filter.leveldb.BuiltinBloomFilter2". */
  const FILTER_KEY: Bytes := [
    102, 105, 108, 116, 101, 114, 46, 108, 101, 118, 101, 108, 100, 98, 46,
    66, 117, 105, 108, 116, 105, 110, 66, 108, 111, 111, 109, 70, 105, 108, 116, 101, 114, 50]

  lemma FilterKeyIs()
    ensures var name := "filter.leveldb.BuiltinBloomFilter2";
            |FILTER_KEY| == |name| && forall i :: 0 <= i < |name| ==> FILTER_KEY[i] == name[i] as int
  {
  }

  function FilterData(opt: Options, st: Built): (b: Bytes)
    requires opt.policy.Valid()
    ensures |b| >= 5
  {
    FilterBlockBytes(opt.policy, st.filt.Finished())
  }

  function FilterHandle(opt: Options, st: Built): BlockHandle
    requires opt.policy.Valid()
  {
    BlockHandle(|st.file|, |FilterData(opt, st)|)
  }

  function MetaEntries(opt: Options, st: Built): seq<Entry>
    requires opt.policy.Valid()
  {
    [Entry(FILTER_KEY, FilterHandle(opt, st).Encode())]
  }

  function IndexEntries(seps: seq<Bytes>, handles: seq<BlockHandle>): (es: seq<Entry>)
    requires |seps| == |handles|
    ensures |es| == |seps|
    ensures forall i :: 0 <= i < |es| ==> es[i] == Entry(seps[i], handles[i].Encode())
  {
    seq(|seps|, i requires 0 <= i < |seps| => Entry(seps[i], handles[i].Encode()))
  }

  // A block behind `file`, and its handle.
  function HandleBehind(opt: Options, file: Bytes, contents: Bytes): BlockHandle {
    BlockHandle(|file|, |Packed(opt, contents, opt.compression)|)
  }

  function WithFilter(opt: Options, st: Built): Bytes
    requires opt.policy.Valid()
  {
    st.file + Frame(opt, FilterData(opt, st), NoCompression)
  }

  function WithMeta(opt: Options, st: Built): Bytes
    requires opt.policy.Valid()
  {
    WithFilter(opt, st) + Frame(opt, Contents(opt, MetaEntries(opt, st)), opt.compression)
  }

  function WithIndex(opt: Options, st: Built): Bytes
    requires opt.policy.Valid() && |st.seps| == |st.handles|
  {
    WithMeta(opt, st) + Frame(opt, Contents(opt, IndexEntries(st.seps, st.handles)), opt.compression)
  }

  function FooterOf(opt: Options, st: Built): Footer
    requires opt.policy.Valid() && |st.seps| == |st.handles|
  {
    Footer(
      HandleBehind(opt, WithFilter(opt, st), Contents(opt, MetaEntries(opt, st))),
      HandleBehind(opt, WithMeta(opt, st), Contents(opt, IndexEntries(st.seps, st.handles))))
  }

  lemma {:induction false} SameLengths(opt: Options, es: seq<Entry>)
    requires opt.blockSize >= 8
    ensures |AddAll(opt, es).seps| == |AddAll(opt, es).handles| == |AddAll(opt, es).blocks|
    ensures |Closed(opt, es).seps| == |Closed(opt, es).handles| == |Closed(opt, es).blocks|
    decreases |es|
  {
    hide Contents, Frame, Packed, FilterKeys.StartBlock, FilterKeys.AddKey, ShortestSep;
    if es != [] {
      SameLengths(opt, es[..|es| - 1]);
    }
  }

  /** The whole file `finish` leaves behind. */
  function Image(opt: Options, st: Built): Bytes
    requires opt.policy.Valid() && |st.seps| == |st.handles|
  {
    WithIndex(opt, st) + FooterOf(opt, st).Encode()
  }

  function TableBytes(opt: Options, es: seq<Entry>): Bytes
    requires opt.blockSize >= 8 && opt.policy.Valid()
  {
    SameLengths(opt, es);
    Image(opt, Closed(opt, es))
  }

  // ---------- sizes the code relies on ----------

  /** What the builder needs of its state: 32-bit file offsets and addressable filter bits. */
  ghost predicate Roomy(opt: Options, st: Built) {
    |st.file| < U32 && st.filt.Addressable(opt.policy)
  }

  /** No table of 4 GB or more, no block of 4 GB or more, no filter of 2^32 bits or more. */
  ghost predicate Fits(opt: Options, es: seq<Entry>)
    requires opt.blockSize >= 8 && opt.policy.Valid()
  {
    SameLengths(opt, es);
    var st := Closed(opt, es);
    && |TableBytes(opt, es)| < U32
    && st.filt.Addressable(opt.policy)
    && (forall i :: 0 <= i < |st.blocks| ==> |Contents(opt, st.blocks[i])| < U32)
    && |Contents(opt, IndexEntries(st.seps, st.handles))| < U32
    && |Contents(opt, MetaEntries(opt, st))| < U32
  }

  lemma FewerKeysAddressable(p: BloomPolicy, n: nat, m: nat)
    requires n <= m && p.Addressable(m)
    ensures p.Addressable(n)
  {
    assert n * p.bitsPerKey <= m * p.bitsPerKey;
  }

  lemma {:induction false} FillToAddressable(p: BloomPolicy, fk: FilterKeys, n: nat)
    requires fk.FillTo(n).Addressable(p)
    ensures fk.Addressable(p)
    decreases n - |fk.groups|
  {
    hide BloomPolicy.BodyLen;
    if n > |fk.groups| {
      FillToAddressable(p, fk.Generate(), n);
      assert fk.Generate().groups[|fk.groups|] == fk.waiting;
      assert forall i :: 0 <= i < |fk.groups| ==> fk.Generate().groups[i] == fk.groups[i];
    }
  }

  lemma RoomyBeforeFlush(opt: Options, st: Built, nextKey: Bytes)
    requires st.pending != [] && Roomy(opt, Flush(opt, st, nextKey))
    ensures Roomy(opt, st)
  {
    hide Contents, Frame, Packed, BloomPolicy.BodyLen, FilterKeys.FillTo, FilterKeys.Addressable, FilterIndex;
    FillToAddressable(opt.policy, st.filt, FilterIndex(|Flush(opt, st, nextKey).file|, FILTER_BASE_LOG2));
  }

  // The state an addition starts from, and the one in between if it flushes, are roomy too.
  lemma RoomyBeforeAdd(opt: Options, st: Built, e: Entry)
    requires opt.Valid() && Roomy(opt, Add(opt, st, e))
    ensures Roomy(opt, st)
    ensures MustFlush(opt, st) ==> st.pending != [] && Roomy(opt, Flush(opt, st, e.key))
  {
    hide Contents, Frame, Packed, BloomPolicy.BodyLen, FilterKeys.StartBlock;
    if MustFlush(opt, st) {
      EmptyBlockIsSmall(opt, st);
      var st1 := Flush(opt, st, e.key);
      FewerKeysAddressable(opt.policy, |st1.filt.waiting|, |st1.filt.waiting| + 1);
      RoomyBeforeFlush(opt, st, e.key);
    } else {
      FewerKeysAddressable(opt.policy, |st.filt.waiting|, |st.filt.waiting| + 1);
    }
  }

  lemma {:induction false} RoomyPrefix(opt: Options, es: seq<Entry>, i: nat)
    requires opt.Valid() && i <= |es| && Roomy(opt, AddAll(opt, es))
    ensures Roomy(opt, AddAll(opt, es[..i]))
    decreases |es|
  {
    hide Add, Roomy;
    if i == |es| {
      assert es[..i] == es;
    } else {
      var n := |es| - 1;
      RoomyBeforeAdd(opt, AddAll(opt, es[..n]), es[n]);
      RoomyPrefix(opt, es[..n], i);
      assert es[..n][..i] == es[..i];
    }
  }

  lemma FitsIsRoomy(opt: Options, es: seq<Entry>)
    requires opt.Valid() && Fits(opt, es)
    ensures Roomy(opt, Closed(opt, es)) && Roomy(opt, AddAll(opt, es))
  {
    hide Contents, Frame, Packed, BloomPolicy.BodyLen, FilterBlockBytes, BlockHandle.Encode, Footer.Encode, Flush;
    var st := AddAll(opt, es);
    if st.pending != [] {
      RoomyBeforeFlush(opt, st, ShortSucc(LastKey(st.pending)));
    }
  }

  // ---------- reading back ----------

  lemma ReadsFound(opt: Options, f: Bytes, off: nat, contents: Bytes, c: Compression)
    requires opt.Valid() && FoundAt(f, off, Frame(opt, contents, c))
    ensures ReadTableBlock(opt, f, BlockHandle(off, |Packed(opt, contents, c)|)) == Ok(contents)
  {
    hide Packed, Frame, ReadTableBlock;
    var frame := Frame(opt, contents, c);
    var end := off + |frame|;
    assert f == f[..off] + frame + f[end..];
    FrameReadsBack(opt, f[..off], contents, c, f[end..]);
  }

  /** Every data block reads back through its handle, whatever follows the data area. */
  lemma DataReadsBack(opt: Options, st: Built, i: nat, more: Bytes)
    requires opt.Valid() && Tiled(opt, st) && i < |st.handles|
    ensures ReadTableBlock(opt, st.file + more, st.handles[i]) == Ok(Contents(opt, st.blocks[i]))
  {
    hide Contents, Packed, Frame, ReadTableBlock, FoundAt;
    assert Placed(opt, st, i);
    FoundAtExtends(st.file, st.handles[i].offset, Frame(opt, Contents(opt, st.blocks[i]), opt.compression), more);
    ReadsFound(opt, st.file + more, st.handles[i].offset, Contents(opt, st.blocks[i]), opt.compression);
  }

  lemma ReadsBehind(opt: Options, file: Bytes, contents: Bytes, more: Bytes)
    requires opt.Valid()
    ensures ReadTableBlock(opt, file + Frame(opt, contents, opt.compression) + more, HandleBehind(opt, file, contents))
         == Ok(contents)
  {
    hide Contents, Packed, Frame, ReadTableBlock;
    FrameReadsBack(opt, file, contents, opt.compression, more);
  }

  lemma FilterReadsBack(opt: Options, st: Built, more: Bytes)
    requires opt.policy.Valid()
    ensures ReadAt(WithFilter(opt, st) + more, |st.file|, |FilterData(opt, st)|) == FilterData(opt, st)
  {
    hide FilterData, MaskCrc, ToWord, EncodeFixed, ReadAt;
    var data := FilterData(opt, st);
    var frame := Frame(opt, data, NoCompression);
    StoredParts(data, 0, opt.crc(data + [0]));
    assert frame == data + frame[|data|..];
    assert WithFilter(opt, st) + more == st.file + data + (frame[|data|..] + more);
    ReadWithin(st.file, data, frame[|data|..] + more);
  }

  lemma FooterReadsBack(file: Bytes, f: Footer)
    requires f.Wide64()
    ensures var all := file + f.Encode();
            && |all| == |file| + FULL_FOOTER_LENGTH
            && DecodeFooter(ReadAt(all, |file|, FULL_FOOTER_LENGTH)) == Some(f)
  {
    hide Footer.Encode, DecodeFooter, ReadAt;
    FooterRoundTrip(f);
    assert file + f.Encode() == file + f.Encode() + [];
    ReadWithin(file, f.Encode(), []);
  }
}

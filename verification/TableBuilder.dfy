/**
 `TableBuilder`: writes sorted pairs to a sink, block by block.

 The sink takes whole writes and is the byte string received so far.
 */
module TableBuilding {
  import opened Bytes
  import opened Codec
  import opened Comparator
  import opened BlockFormat
  import opened BlockBuilding
  import opened Bloom
  import opened FilterBlock
  import opened TableFormat
  import opened Build
  import opened TableImage

  class TableBuilder {
    const opt: Options

    var dst: Bytes
    var offset: nat
    var numEntries: nat
    var prevBlockLastKey: Bytes

    var dataBlock: BlockBuilder
    var indexBlock: BlockBuilder
    var filterBlock: FilterBlockBuilder

    ghost predicate DataMatches(pending: seq<Entry>)
      reads this`dataBlock, dataBlock
    {
      dataBlock.Valid() && dataBlock.interval == opt.restartInterval && dataBlock.es == pending
    }

    ghost predicate IndexMatches(seps: seq<Bytes>, handles: seq<BlockHandle>)
      reads this`indexBlock, indexBlock
    {
      && |seps| == |handles|
      && indexBlock.Valid() && indexBlock.interval == opt.restartInterval
      && indexBlock.es == IndexEntries(seps, handles)
    }

    ghost predicate FilterMatches(fk: FilterKeys)
      reads this`filterBlock, filterBlock
    {
      filterBlock.Valid() && filterBlock.policy == opt.policy && filterBlock.st == fk
    }

    ghost predicate SinkMatches(st: Built)
      reads this`dst, this`offset, this`prevBlockLastKey
    {
      dst == st.file && offset == |dst| && prevBlockLastKey == LastBlockKey(st.blocks)
    }

    // The fields hold state `st`.
    ghost predicate Matches(st: Built)
      reads this`dst, this`offset, this`prevBlockLastKey, this`dataBlock, this`indexBlock, this`filterBlock
      reads dataBlock, indexBlock, filterBlock
    {
      && opt.Valid()
      && dataBlock != indexBlock
      && DataMatches(st.pending)
      && IndexMatches(st.seps, st.handles)
      && FilterMatches(st.filt)
      && SinkMatches(st)
    }

    /** The builder is in state `st`, and `st` is one that building sorted pairs leads to. */
    ghost predicate Holds(st: Built)
      reads this`dst, this`offset, this`prevBlockLastKey, this`dataBlock, this`indexBlock, this`filterBlock
      reads dataBlock, indexBlock, filterBlock
    {
      Matches(st) && Ordered(st) && Filtered(st)
    }

    constructor (opt: Options)
      requires opt.Valid()
      ensures Holds(START) && this.opt == opt && numEntries == 0
      ensures fresh(dataBlock) && fresh(indexBlock) && fresh(filterBlock)
    {
      this.opt := opt;
      dst, offset, numEntries, prevBlockLastKey := [], 0, 0, [];
      dataBlock := new BlockBuilder(opt.restartInterval);
      filterBlock := new FilterBlockBuilder(opt.policy);
      indexBlock := new BlockBuilder(opt.restartInterval);
    }

    /** `write_block`: sends contents, type byte and masked checksum to the sink. */
    method WriteBlock(block: Bytes, ctype: Compression) returns (handle: BlockHandle)
      requires offset == |dst|
      modifies this`dst, this`offset
      ensures dst == old(dst) + Frame(opt, block, ctype)
      ensures offset == |dst|
      ensures handle == BlockHandle(|old(dst)|, |Packed(opt, block, ctype)|)
    {
      hide MaskCrc, ToWord, EncodeFixed;
      var data := block;
      if ctype == Snappy {
        data := opt.compress(data);
      }
      var digest := opt.crc(data + [TypeByte(ctype)]);
      dst := dst + data;
      dst := dst + [TypeByte(ctype)];
      dst := dst + EncodeFixed(ToWord(MaskCrc(digest)), 4);
      handle := BlockHandle(offset, |data|);
      offset := offset + |data| + 1 + 4;
      assert dst == old(dst) + (data + [TypeByte(ctype)] + EncodeFixed(ToWord(MaskCrc(digest)), 4));
    }

    /** Encodes a handle in a 16-byte scratch buffer. */
    method ScratchEncode(handle: BlockHandle) returns (enc: Bytes)
      requires handle.offset < U32 && handle.size < U32
      ensures enc == handle.Encode()
    {
      hide BlockHandle.Encode;
      HandleFitsScratch(handle);
      var scratch := new byte[16](_ => 0);
      var encLen := EncodeHandleTo(handle, scratch, 0);
      enc := scratch[0..encLen];
    }

    // First part of `WriteDataBlock`: the block is finished and a new one begun.
    method TakeDataBlock(nextKey: Bytes, ghost pending: seq<Entry>) returns (sep: Bytes, contents: Bytes)
      requires opt.restartInterval >= 1
      requires DataMatches(pending) && pending != []
      requires Lt(LastKey(pending), nextKey)
      modifies this`prevBlockLastKey, this`dataBlock, dataBlock
      ensures sep == ShortestSep(LastKey(pending), nextKey)
      ensures contents == Contents(opt, pending)
      ensures prevBlockLastKey == LastKey(pending)
      ensures fresh(dataBlock) && DataMatches([])
    {
      hide BlockBytes, ShortestSep, BlockBuilder.Valid, Cmp;
      TotalOrder(LastKey(pending), nextKey, nextKey);
      var block := dataBlock;
      sep := FindShortestSep(block.LastKey(), nextKey);
      prevBlockLastKey := block.LastKey();
      contents := block.Finish();
      dataBlock := new BlockBuilder(opt.restartInterval);
    }

    // The block goes to the sink.
    method EmitDataBlock(nextKey: Bytes, ghost st: Built) returns (sep: Bytes, handle: BlockHandle)
      requires opt.restartInterval >= 1
      requires DataMatches(st.pending) && SinkMatches(st) && st.pending != []
      requires Lt(LastKey(st.pending), nextKey)
      modifies this`dst, this`offset, this`prevBlockLastKey, this`dataBlock, dataBlock
      ensures sep == ShortestSep(LastKey(st.pending), nextKey)
      ensures handle == HandleBehind(opt, st.file, Contents(opt, st.pending))
      ensures SinkMatches(Flush(opt, st, nextKey))
      ensures fresh(dataBlock) && DataMatches([])
    {
      hide Contents, Frame, Packed, ShortestSep, FilterKeys.StartBlock, BlockBuilder.Valid, Cmp;
      var contents;
      sep, contents := TakeDataBlock(nextKey, st.pending);
      handle := WriteBlock(contents, opt.compression);
    }

    // Second part: the block's entry in the index.
    method AddIndexEntry(sep: Bytes, handle: BlockHandle, ghost seps: seq<Bytes>, ghost handles: seq<BlockHandle>)
      requires IndexMatches(seps, handles)
      requires handle.offset < U32 && handle.size < U32
      requires seps != [] ==> Lt(seps[|seps| - 1], sep)
      modifies indexBlock
      ensures IndexMatches(seps + [sep], handles + [handle])
    {
      hide BlockHandle.Encode, BlockBuilder.Valid, Cmp;
      var handleEnc := ScratchEncode(handle);
      IndexEntriesSnoc(seps, handles, sep, handle);
      LastIndexKey(seps, handles);
      indexBlock.Add(sep, handleEnc);
    }

    // Third part: filters up to the new offset.
    method StartFilters(at: nat, ghost fk: FilterKeys)
      requires FilterMatches(fk)
      requires opt.policy.Addressable(|fk.waiting|) && opt.policy.Addressable(0)
      requires FilterIndex(at, FILTER_BASE_LOG2) >= |fk.groups|
      modifies filterBlock
      ensures FilterMatches(fk.StartBlock(at))
    {
      hide FilterKeys.StartBlock, FilterIndex, FilterBlockBuilder.Valid, BloomPolicy.BodyLen;
      filterBlock.StartBlock(at);
    }

    // The block in the sink and in the index; filters are as before.
    method IndexDataBlock(nextKey: Bytes, ghost st: Built)
      requires Matches(st) && CanFlush(opt, st, nextKey)
      modifies this`dst, this`offset, this`prevBlockLastKey, this`dataBlock, dataBlock, indexBlock
      ensures DataMatches([]) && fresh(dataBlock)
      ensures var st' := Flush(opt, st, nextKey); IndexMatches(st'.seps, st'.handles) && SinkMatches(st')
      ensures FilterMatches(st.filt)
      ensures indexBlock == old(indexBlock) && filterBlock == old(filterBlock)
    {
      FlushIsSmall(opt, st, nextKey);
      assert opt.restartInterval >= 1;
      hide Contents, Frame, Packed, ShortestSep, FilterIndex, FilterKeys.StartBlock, FilterKeys.Addressable, Roomy,
           FilterBlockBuilder.Valid, BlockBuilder.Valid, IndexEntries, Options.Valid, Cmp, LastBlockKey,
           BlockHandle.Encode;
      var sep, handle := EmitDataBlock(nextKey, st);
      hide TableBuilder.DataMatches, TableBuilder.IndexMatches, TableBuilder.FilterMatches;
      assert IndexMatches(st.seps, st.handles) && FilterMatches(st.filt);
      AddIndexEntry(sep, handle, st.seps, st.handles);
    }

    /** `write_data_block`: framed block, index entry, and filters up to the new offset. */
    method WriteDataBlock(nextKey: Bytes, ghost st: Built)
      requires Matches(st) && CanFlush(opt, st, nextKey)
      modifies this`dst, this`offset, this`prevBlockLastKey, this`dataBlock, dataBlock, indexBlock, filterBlock
      ensures Matches(Flush(opt, st, nextKey)) && fresh(dataBlock)
      ensures indexBlock == old(indexBlock) && filterBlock == old(filterBlock)
    {
      FlushIsSmall(opt, st, nextKey);
      assert FilterIndex(|Flush(opt, st, nextKey).file|, FILTER_BASE_LOG2) >= |st.filt.groups|;
      hide Contents, Frame, Packed, ShortestSep, FilterIndex, FilterKeys.StartBlock, CanFlush, Options.Valid,
           TableBuilder.DataMatches, TableBuilder.IndexMatches, TableBuilder.FilterMatches, LastBlockKey;
      IndexDataBlock(nextKey, st);
      StartFilters(offset, st.filt);
    }

    // The part of `Add` that writes a full data block.
    method FlushIfFull(nextKey: Bytes, ghost st: Built)
      requires Matches(st)
      requires MustFlush(opt, st) ==> CanFlush(opt, st, nextKey)
      modifies this`dst, this`offset, this`prevBlockLastKey, this`dataBlock, dataBlock, indexBlock, filterBlock
      ensures Matches(if MustFlush(opt, st) then Flush(opt, st, nextKey) else st)
      ensures dataBlock == old(dataBlock) || fresh(dataBlock)
      ensures indexBlock == old(indexBlock) && filterBlock == old(filterBlock)
    {
      hide Flush, BlockBytes, BlockBuilder.Valid, FilterBlockBuilder.Valid, Options.Valid, CanFlush, Cmp,
           IndexEntries;
      if dataBlock.SizeEstimate() > opt.blockSize {
        WriteDataBlock(nextKey, st);
      }
    }

    // `Add` in terms of the state before it.
    method AddTo(key: Bytes, val: Bytes, ghost st: Built)
      requires Matches(st) && CanAdd(opt, st, Entry(key, val))
      modifies this`numEntries, this`dst, this`offset, this`prevBlockLastKey, this`dataBlock
      modifies dataBlock, indexBlock, filterBlock
      ensures Matches(Build.Add(opt, st, Entry(key, val)))
      ensures numEntries == old(numEntries) + 1
      ensures dataBlock == old(dataBlock) || fresh(dataBlock)
      ensures indexBlock == old(indexBlock) && filterBlock == old(filterBlock)
    {
      hide Flush, BlockBytes, BlockBuilder.Valid, FilterBlockBuilder.Valid, IndexEntries, FilterKeys.AddKey,
           CanFlush, MustFlush;
      assert prevBlockLastKey != [] ==> Cmp(prevBlockLastKey, key) == Less;
      if MustFlush(opt, st) {
        EmptyBlockIsSmall(opt, st);
        NothingPending(opt, st, key);
      }
      FlushIfFull(key, st);
      PutEntry(key, val, if MustFlush(opt, st) then Flush(opt, st, key) else st);
    }

    /** `add`; `st` is the state before it. */
    method Add(key: Bytes, val: Bytes, ghost st: Built)
      requires Holds(st) && CanFollow(st, Entry(key, val))
      requires Roomy(opt, Build.Add(opt, st, Entry(key, val)))
      modifies this`numEntries, this`dst, this`offset, this`prevBlockLastKey, this`dataBlock
      modifies dataBlock, indexBlock, filterBlock
      ensures Holds(Build.Add(opt, st, Entry(key, val)))
      ensures numEntries == old(numEntries) + 1
      ensures dataBlock == old(dataBlock) || fresh(dataBlock)
      ensures indexBlock == old(indexBlock) && filterBlock == old(filterBlock)
    {
      ghost var e := Entry(key, val);
      AddReady(opt, st, e);
      hide Ordered, Filtered, Roomy, CanFollow, CanAdd, Build.Add, Options.Valid;
      AddTo(key, val, st);
    }

    // The part of `Add` behind a possible flush.
    method PutEntry(key: Bytes, val: Bytes, ghost st: Built)
      requires Matches(st) && key != []
      requires st.pending == [] || Lt(LastKey(st.pending), key)
      modifies this`numEntries, dataBlock, filterBlock
      ensures Matches(st.(pending := st.pending + [Entry(key, val)], filt := st.filt.AddKey(key)))
      ensures numEntries == old(numEntries) + 1
    {
      hide BlockBuilder.Valid, FilterBlockBuilder.Valid, Options.Valid, IndexEntries, FilterKeys.AddKey, Cmp,
           LastBlockKey;
      filterBlock.AddKey(key);
      numEntries := numEntries + 1;
      dataBlock.Add(key, val);
    }

    /** The last data block, if there is one, goes out under a key past its last. */
    method FlushLast(ghost st: Built)
      requires Holds(st) && Roomy(opt, Close(opt, st))
      modifies this`dst, this`offset, this`prevBlockLastKey, this`dataBlock, dataBlock, indexBlock, filterBlock
      ensures Matches(Close(opt, st))
      ensures indexBlock == old(indexBlock) && filterBlock == old(filterBlock)
    {
      hide Ordered, Filtered, Roomy, CanFlush, Flush, Options.Valid, IndexEntries, BlockBuilder.Valid,
           FilterBlockBuilder.Valid, Cmp;
      if dataBlock.Entries() > 0 {
        var keyPastLast := FindShortSucc(dataBlock.LastKey());
        FlushIsReady(opt, st, keyPastLast);
        WriteDataBlock(keyPastLast, st);
      }
    }

    /** The filter block is never compressed. */
    method WriteFilter(ghost st: Built) returns (handle: BlockHandle)
      requires FilterMatches(st.filt) && opt.policy.Valid() && opt.policy.Addressable(|st.filt.waiting|)
      requires dst == st.file && offset == |dst|
      modifies this`dst, this`offset, filterBlock
      ensures dst == WithFilter(opt, st) && offset == |dst|
      ensures handle == FilterHandle(opt, st)
    {
      hide FilterBlockBytes, Frame, FilterBlockBuilder.Valid, BloomPolicy.BodyLen;
      var data := filterBlock.Finish();
      handle := WriteBlock(data, NoCompression);
    }

    /** The metaindex block names the filter block. */
    method WriteMeta(filterHandle: BlockHandle, ghost st: Built) returns (handle: BlockHandle)
      requires opt.restartInterval >= 1 && opt.policy.Valid()
      requires filterHandle == FilterHandle(opt, st) && filterHandle.offset < U32 && filterHandle.size < U32
      requires dst == WithFilter(opt, st) && offset == |dst|
      modifies this`dst, this`offset
      ensures dst == WithMeta(opt, st) && offset == |dst|
      ensures handle == HandleBehind(opt, WithFilter(opt, st), Contents(opt, MetaEntries(opt, st)))
    {
      hide BlockBytes, Frame, Packed, BlockHandle.Encode, WithFilter, FilterHandle;
      var block := new BlockBuilder(opt.restartInterval);
      var enc := ScratchEncode(filterHandle);
      block.Add(FILTER_KEY, enc);
      assert block.es == MetaEntries(opt, st);
      var contents := block.Finish();
      handle := WriteBlock(contents, opt.compression);
    }

    method WriteIndex(ghost st: Built) returns (handle: BlockHandle)
      requires opt.policy.Valid() && IndexMatches(st.seps, st.handles)
      requires dst == WithMeta(opt, st) && offset == |dst|
      modifies this`dst, this`offset, indexBlock
      ensures dst == WithIndex(opt, st) && offset == |dst|
      ensures handle == HandleBehind(opt, WithMeta(opt, st), Contents(opt, IndexEntries(st.seps, st.handles)))
    {
      hide BlockBytes, Frame, Packed, IndexEntries, WithMeta, BlockBuilder.Valid;
      var contents := indexBlock.Finish();
      handle := WriteBlock(contents, opt.compression);
    }

    method WriteFooter(footer: Footer)
      requires footer.Wide64() && offset == |dst|
      modifies this`dst, this`offset
      ensures dst == old(dst) + footer.Encode() && offset == |dst|
    {
      hide Footer.Encode;
      var buf := new byte[48](_ => 0);
      EncodeFooterTo(footer, buf);
      dst := dst + buf[..];
      offset := offset + buf.Length;
      assert buf[..] == buf[..FULL_FOOTER_LENGTH];
    }

    // Filter block and metaindex block.
    method WriteFilterAndMeta(ghost st: Built) returns (handle: BlockHandle)
      requires opt.restartInterval >= 1 && opt.policy.Valid() && opt.policy.Addressable(|st.filt.waiting|)
      requires FilterMatches(st.filt) && dst == st.file && offset == |dst|
      requires FilterHandle(opt, st).offset < U32 && FilterHandle(opt, st).size < U32
      modifies this`dst, this`offset, filterBlock
      ensures dst == WithMeta(opt, st) && offset == |dst|
      ensures handle == HandleBehind(opt, WithFilter(opt, st), Contents(opt, MetaEntries(opt, st)))
    {
      hide WithFilter, WithMeta, FilterHandle, Contents, FilterBlockBuilder.Valid;
      var filterHandle := WriteFilter(st);
      handle := WriteMeta(filterHandle, st);
    }

    // Everything behind the data blocks.
    method WriteTail(ghost st: Built)
      requires opt.restartInterval >= 1 && opt.policy.Valid() && opt.policy.Addressable(|st.filt.waiting|)
      requires FilterMatches(st.filt) && IndexMatches(st.seps, st.handles) && dst == st.file && offset == |dst|
      requires |Image(opt, st)| < U32
      modifies this`dst, this`offset, filterBlock, indexBlock
      ensures dst == Image(opt, st) && offset == |dst|
    {
      ImageParts(opt, st);
      hide TableBuilder.FilterMatches, TableBuilder.IndexMatches, BloomPolicy.BodyLen, Image, WithFilter, WithMeta,
           WithIndex, HandleBehind, FilterHandle, Contents, MetaEntries, IndexEntries, BlockBuilder.Valid,
           FilterBlockBuilder.Valid, Options.Valid, Footer.Encode, FooterOf, Frame;
      var metaHandle := WriteFilterAndMeta(st);
      assert IndexMatches(st.seps, st.handles);
      var ixHandle := WriteIndex(st);
      assert Footer(metaHandle, ixHandle) == FooterOf(opt, st);
      WriteFooter(Footer(metaHandle, ixHandle));
    }

    /** `finish`: the sink then holds the whole table, whose length is returned. */
    method Finish(ghost st: Built) returns (size: nat)
      requires Holds(st) && Roomy(opt, Close(opt, st))
      requires |Close(opt, st).seps| == |Close(opt, st).handles| && |Image(opt, Close(opt, st))| < U32
      modifies this`dst, this`offset, this`prevBlockLastKey, this`dataBlock, dataBlock, indexBlock, filterBlock
      ensures dst == Image(opt, Close(opt, st)) && size == |dst|
    {
      assert Close(opt, st).filt.Addressable(opt.policy);
      hide Image, Close, Roomy, Holds, FilterKeys.Addressable, Options.Valid;
      FlushLast(st);
      WaitingAddressable(opt.policy, Close(opt, st).filt);
      WriteTail(Close(opt, st));
      size := offset;
    }
  }

  lemma WaitingAddressable(p: BloomPolicy, fk: FilterKeys)
    requires fk.Addressable(p)
    ensures p.Addressable(|fk.waiting|)
  {
  }

  // Every part of a table below 4 GB is below 4 GB.
  lemma ImageParts(opt: Options, st: Built)
    requires opt.policy.Valid() && |st.seps| == |st.handles| && |Image(opt, st)| < U32
    ensures var h := FilterHandle(opt, st); h.offset < U32 && h.size < U32
    ensures FooterOf(opt, st).Wide64()
    ensures Image(opt, st) == WithIndex(opt, st) + FooterOf(opt, st).Encode()
    ensures FooterOf(opt, st).metaIndex == HandleBehind(opt, WithFilter(opt, st), Contents(opt, MetaEntries(opt, st)))
    ensures FooterOf(opt, st).index
         == HandleBehind(opt, WithMeta(opt, st), Contents(opt, IndexEntries(st.seps, st.handles)))
  {
    hide Frame, Contents, MetaEntries, IndexEntries, FilterData, Footer.Encode;
  }

  ghost function LastBlockKey(blocks: seq<seq<Entry>>): Bytes {
    if blocks == [] || blocks[|blocks| - 1] == [] then [] else LastKey(blocks[|blocks| - 1])
  }

  lemma NothingPending(opt: Options, st: Built, nextKey: Bytes)
    requires st.pending != []
    ensures Flush(opt, st, nextKey).pending == []
  {
  }

  // Sizes of the block to be written, and of the keys waiting for a filter.
  lemma FlushIsSmall(opt: Options, st: Built, nextKey: Bytes)
    requires st.pending != [] && Roomy(opt, Flush(opt, st, nextKey))
    ensures |st.file| < U32 && |Packed(opt, Contents(opt, st.pending), opt.compression)| < U32
    ensures opt.policy.Addressable(|st.filt.waiting|) && opt.policy.Addressable(0)
  {
    RoomyBeforeFlush(opt, st, nextKey);
    hide Contents, Frame, Packed;
  }

  lemma IndexEntriesSnoc(seps: seq<Bytes>, handles: seq<BlockHandle>, sep: Bytes, handle: BlockHandle)
    requires |seps| == |handles|
    ensures IndexEntries(seps + [sep], handles + [handle])
         == IndexEntries(seps, handles) + [Entry(sep, handle.Encode())]
  {
    hide BlockHandle.Encode;
  }

  lemma LastIndexKey(seps: seq<Bytes>, handles: seq<BlockHandle>)
    requires |seps| == |handles|
    ensures var es := IndexEntries(seps, handles);
            |es| == |seps| && (es != [] ==> es[|es| - 1].key == seps[|seps| - 1])
  {
  }

  // The next separator is above the last one, and the next key above every block written.
  lemma NextIsAbove(st: Built, nextKey: Bytes)
    requires Ordered(st) && st.pending != [] && Lt(LastKey(st.pending), nextKey)
    ensures st.seps != [] ==> Lt(st.seps[|st.seps| - 1], ShortestSep(LastKey(st.pending), nextKey))
    ensures st.blocks != [] ==> Lt(LastBlockKey(st.blocks), nextKey)
  {
    if st.blocks != [] {
      var all := AllBlocks(st);
      var i := |st.blocks| - 1;
      var first, last := FirstKey(st.pending), LastKey(st.pending);
      assert SepOk(all, i, st.seps[i]);
      assert Sorted(all[i + 1]);
      TotalOrder(st.seps[i], first, last);
      TotalOrder(first, first, first);
      TotalOrder(LastBlockKey(st.blocks), st.seps[i], last);
      TotalOrder(LastBlockKey(st.blocks), last, nextKey);
      SeparatorLaw(last, nextKey);
      TotalOrder(st.seps[i], last, ShortestSep(last, nextKey));
    }
  }

  // What `write_data_block` relies on.
  ghost predicate CanFlush(opt: Options, st: Built, nextKey: Bytes) {
    && st.pending != []
    && Lt(LastKey(st.pending), nextKey)
    && (st.seps != [] ==> Lt(st.seps[|st.seps| - 1], ShortestSep(LastKey(st.pending), nextKey)))
    && Roomy(opt, Flush(opt, st, nextKey))
    && FilterIndex(|Flush(opt, st, nextKey).file|, FILTER_BASE_LOG2) >= |st.filt.groups|
  }

  // What `add` relies on.
  ghost predicate CanAdd(opt: Options, st: Built, e: Entry) {
    && CanFollow(st, e)
    && (LastBlockKey(st.blocks) != [] ==> Lt(LastBlockKey(st.blocks), e.key))
    && (MustFlush(opt, st) ==> CanFlush(opt, st, e.key))
  }

  lemma FlushIsReady(opt: Options, st: Built, nextKey: Bytes)
    requires Ordered(st) && st.pending != [] && Lt(LastKey(st.pending), nextKey)
    requires Filtered(st) && Roomy(opt, Flush(opt, st, nextKey))
    ensures CanFlush(opt, st, nextKey)
  {
    hide Flush, Filtered, FilterKeys.Addressable, FilterIndex, Ordered, ShortestSep, Cmp;
    NextIsAbove(st, nextKey);
    FilteredFlush(opt, st, nextKey);
  }

  /** What `add` relies on holds before every addition, and the invariants hold after it. */
  lemma AddReady(opt: Options, st: Built, e: Entry)
    requires opt.Valid() && Ordered(st) && Filtered(st) && CanFollow(st, e) && Roomy(opt, Add(opt, st, e))
    ensures CanAdd(opt, st, e)
    ensures Ordered(Add(opt, st, e)) && Filtered(Add(opt, st, e))
  {
    RoomyBeforeAdd(opt, st, e);
    OrderedAdd(opt, st, e);
    if MustFlush(opt, st) {
      EmptyBlockIsSmall(opt, st);
      FlushIsReady(opt, st, e.key);
      FilteredFlush(opt, st, e.key);
      FilteredPut(Flush(opt, st, e.key), e);
    } else {
      FilteredPut(st, e);
    }
    hide Flush, Filtered, FilterKeys.Addressable, BlockBytes, Ordered, CanFlush, MustFlush, Options.Valid, Cmp, Add,
         FilterKeys.AddKey;
    if st.pending != [] {
      NextIsAbove(st, e.key);
    }
  }

  lemma AddAllStep(opt: Options, es: seq<Entry>, i: nat)
    requires opt.blockSize >= 8 && i < |es|
    ensures AddAll(opt, es[..i + 1]) == Add(opt, AddAll(opt, es[..i]), es[i])
  {
    hide Add;
    assert es[..i + 1][..i] == es[..i];
  }

  lemma NextFollows(opt: Options, es: seq<Entry>, i: nat)
    requires opt.Valid() && Sorted(es) && NonEmptyKeys(es) && i < |es|
    requires Roomy(opt, AddAll(opt, es))
    ensures CanFollow(AddAll(opt, es[..i]), es[i])
    ensures Roomy(opt, Add(opt, AddAll(opt, es[..i]), es[i]))
  {
    assert es[..i] != [] ==> Lt(es[i - 1].key, es[i].key);
    assert es[i].key != [];
    hide AddAll, Add, Sorted, NonEmptyKeys, Roomy, Cmp;
    NothingLost(opt, es[..i]);
    RoomyPrefix(opt, es, i + 1);
    AddAllStep(opt, es, i);
  }

  lemma BeforeFinish(opt: Options, es: seq<Entry>)
    requires opt.Valid() && Fits(opt, es)
    ensures Roomy(opt, Close(opt, AddAll(opt, es))) && Roomy(opt, AddAll(opt, es))
    ensures var st := Close(opt, AddAll(opt, es));
            |st.seps| == |st.handles| && Image(opt, st) == TableBytes(opt, es) && |Image(opt, st)| < U32
  {
    hide AddAll, Close, Image, Contents;
    SameLengths(opt, es);
    FitsIsRoomy(opt, es);
  }

  /** A whole build: every pair is added, in order, and the table is finished. */
  method BuildTable(opt: Options, es: seq<Entry>) returns (file: Bytes, size: nat)
    requires opt.Valid() && Sorted(es) && NonEmptyKeys(es) && Fits(opt, es)
    ensures file == TableBytes(opt, es) && size == |file|
  {
    BeforeFinish(opt, es);
    assert opt.blockSize >= 8;
    hide AddAll, Build.Add, Roomy, Fits, Image, Close, CanFollow, Holds, Sorted, NonEmptyKeys, Options.Valid,
         TableBytes;
    var b := new TableBuilder(opt);
    ghost var st := START;
    StartIsEmpty(opt, es);
    for i := 0 to |es|
      invariant b.opt == opt && b.Holds(st) && st == AddAll(opt, es[..i])
      invariant fresh(b) && fresh(b.dataBlock) && fresh(b.indexBlock) && fresh(b.filterBlock)
    {
      NextFollows(opt, es, i);
      AddAllStep(opt, es, i);
      b.Add(es[i].key, es[i].val, st);
      st := Build.Add(opt, st, es[i]);
    }
    assert es[..|es|] == es;
    size := b.Finish(st);
    file := b.dst;
  }

  lemma StartIsEmpty(opt: Options, es: seq<Entry>)
    requires opt.blockSize >= 8
    ensures AddAll(opt, es[..0]) == START
  {
    assert es[..0] == [];
  }
}

/**
 The bytes a builder writes, read back: what a table opened on them shows and answers.
 */
module EndToEnd {
  import opened Bytes
  import opened Codec
  import opened Seqs
  import opened BlockFormat
  import opened Bloom
  import opened FilterBlock
  import opened TableFormat
  import opened Build
  import opened TableImage
  import opened Separation
  import opened Caching
  import opened BlockCaching
  import opened TableReading
  import opened TableBuilding

  // ---------- the view of a built table ----------

  function IndexOf(opt: Options, es: seq<Entry>): seq<Entry>
    requires opt.blockSize >= 8
  {
    SameLengths(opt, es);
    IndexEntries(Closed(opt, es).seps, Closed(opt, es).handles)
  }

  /** A list of pairs that a table can be built from. */
  ghost predicate Buildable(opt: Options, es: seq<Entry>) {
    opt.Valid() && Sorted(es) && NonEmptyKeys(es) && Fits(opt, es)
  }

  ghost function ViewOf(opt: Options, es: seq<Entry>, id: nat): View
    requires Buildable(opt, es)
  {
    var st := Closed(opt, es);
    View(
      LayoutOf(IndexOf(opt, es), opt.restartInterval),
      Source(id, opt, TableBytes(opt, es), st.handles),
      seq(|st.blocks|, i requires 0 <= i < |st.blocks| => Some(LayoutOf(st.blocks[i], opt.restartInterval))))
  }

  /** Blocks and separators of the finished build are in order, and the blocks hold the pairs. */
  lemma ClosedIsSeparated(opt: Options, es: seq<Entry>)
    requires opt.Valid() && Sorted(es) && NonEmptyKeys(es)
    ensures var st := Closed(opt, es); SeparatedBy(st.blocks, st.seps) && Flatten(st.blocks) == es
  {
    hide AddAll, Flush, BlocksOk, SepOk;
    SameLengths(opt, es);
    OrderedAll(opt, es);
    NothingLost(opt, es);
    ClosedHasNoPending(opt, es);
  }

  lemma IndexIsSorted(bs: seq<seq<Entry>>, seps: seq<Bytes>, handles: seq<BlockHandle>)
    requires SeparatedBy(bs, seps) && |handles| == |seps|
    ensures Sorted(IndexEntries(seps, handles)) && NonEmptyKeys(IndexEntries(seps, handles))
  {
    hide BlocksOk, BlockHandle.Encode;
    forall i, j | 0 <= i < j < |seps| ensures Lt(seps[i], seps[j]) {
      SepsIncrease(bs, seps, i, j);
    }
    forall i | 0 <= i < |seps| ensures seps[i] != [] {
      assert SepOk(bs, i, seps[i]);
    }
  }

  // ---------- what it shows ----------

  lemma ImageExtendsData(opt: Options, st: Built)
    requires opt.policy.Valid() && |st.seps| == |st.handles|
    ensures st.file <= Image(opt, st) && |st.file| + |FilterData(opt, st)| <= |Image(opt, st)|
    ensures WithFilter(opt, st) <= Image(opt, st)
    ensures WithMeta(opt, st) <= Image(opt, st)
    ensures WithIndex(opt, st) <= Image(opt, st)
  {
    hide Frame, FilterData, Contents, FooterOf, Footer.Encode;
  }

  lemma BlockReads(opt: Options, st: Built, i: nat)
    requires opt.Valid() && Tiled(opt, st) && i < |st.handles| && |st.seps| == |st.handles|
    ensures ReadTableBlock(opt, Image(opt, st), st.handles[i]) == Ok(Contents(opt, st.blocks[i]))
  {
    hide Image, ReadTableBlock, Contents, Tiled;
    assert i < |st.blocks| by { assert |st.handles| == |st.blocks| by { TiledLengths(opt, st); } }
    ImageExtendsData(opt, st);
    var file := Image(opt, st);
    SplitPrefix(st.file, file);
    DataReadsBack(opt, st, i, file[|st.file|..]);
  }

  lemma TiledLengths(opt: Options, st: Built)
    requires Tiled(opt, st)
    ensures |st.handles| == |st.blocks|
  {
  }

  lemma BlockShown(opt: Options, es: seq<Entry>, i: nat)
    requires Buildable(opt, es) && i < |Closed(opt, es).blocks|
    ensures |Closed(opt, es).handles| == |Closed(opt, es).blocks|
    ensures ShowsBlock(
              ReadTableBlock(opt, TableBytes(opt, es), Closed(opt, es).handles[i]),
              Some(LayoutOf(Closed(opt, es).blocks[i], opt.restartInterval)))
  {
    var st := Closed(opt, es);
    assert |Contents(opt, st.blocks[i])| < U32 && opt.restartInterval >= 1;
    hide Closed, Image, ReadTableBlock, BlockBytes, LayoutOf, Fits, Tiled, SepOk, Options.Valid, Flatten;
    SameLengths(opt, es);
    TiledAll(opt, es);
    BlockReads(opt, st, i);
    ClosedIsSeparated(opt, es);
    assert Sorted(st.blocks[i]) && NonEmptyKeys(st.blocks[i]);
    BuiltBlockHasLayout(st.blocks[i], opt.restartInterval);
    LayoutHolds(st.blocks[i], opt.restartInterval);
  }

  lemma LayoutHolds(es: seq<Entry>, r: nat)
    ensures LayoutOf(es, r).es == es
  {
  }

  // Without compression a frame is as long as the contents and the five bytes behind them.
  lemma UncompressedBlockFits(opt: Options, st: Built, i: nat)
    requires opt.compression.NoCompression? && Tiled(opt, st) && i < |st.blocks|
    ensures |Contents(opt, st.blocks[i])| <= |st.file|
  {
    hide Contents, Frame;
    assert Placed(opt, st, i);
  }

  lemma ValidOptions(opt: Options)
    requires opt.Valid()
    ensures opt.policy.Valid() && opt.blockSize >= 8
  {
  }

  /** Without compression, a table below 4 GB meets all size limits but the one on filter bits. */
  lemma UncompressedFits(opt: Options, es: seq<Entry>)
    requires opt.Valid() && opt.compression.NoCompression?
    requires |TableBytes(opt, es)| < U32 && Closed(opt, es).filt.Addressable(opt.policy)
    ensures Fits(opt, es)
  {
    ValidOptions(opt);
    hide Closed, Contents, Frame, FilterData, MetaEntries, IndexEntries, FooterOf, Tiled, Options.Valid;
    var st := Closed(opt, es);
    SameLengths(opt, es);
    TiledAll(opt, es);
    ImageExtendsData(opt, st);
    forall i | 0 <= i < |st.blocks| ensures |Contents(opt, st.blocks[i])| < U32 {
      UncompressedBlockFits(opt, st, i);
    }
  }

  lemma HandlesFit(opt: Options, es: seq<Entry>)
    requires Buildable(opt, es)
    ensures var st := Closed(opt, es);
            && |st.handles| == |st.blocks|
            && (forall i :: 0 <= i < |st.handles| ==> st.handles[i].offset < U32 && st.handles[i].size < U32)
            && (forall i, j ::
                  0 <= i < |st.handles| && 0 <= j < |st.handles| && st.handles[i].offset == st.handles[j].offset ==>
                  st.handles[i] == st.handles[j])
  {
    var st := Closed(opt, es);
    hide Closed, Image, Tiled, Contents;
    SameLengths(opt, es);
    TiledAll(opt, es);
    ImageExtendsData(opt, st);
    forall i | 0 <= i < |st.handles| ensures st.handles[i].offset < U32 && st.handles[i].size < U32 {
      OffsetsWithinFile(opt, st, i);
    }
    forall i, j | 0 <= i < |st.handles| && 0 <= j < |st.handles| && st.handles[i].offset == st.handles[j].offset
      ensures st.handles[i] == st.handles[j]
    {
      SameOffsetSameBlock(opt, st, i, j);
    }
  }

  lemma SameOffsetSameBlock(opt: Options, st: Built, i: nat, j: nat)
    requires Tiled(opt, st) && i < |st.handles| && j < |st.handles| && st.handles[i].offset == st.handles[j].offset
    ensures i == j
  {
    hide Tiled;
    if i < j {
      OffsetsIncrease(opt, st, i, j);
    } else if j < i {
      OffsetsIncrease(opt, st, j, i);
    }
  }

  lemma IndexShown(opt: Options, es: seq<Entry>)
    requires Buildable(opt, es)
    ensures var l := LayoutOf(IndexOf(opt, es), opt.restartInterval);
            l.es == IndexOf(opt, es) && l.Of(Contents(opt, IndexOf(opt, es))) && Sorted(l.es)
  {
    assert |Contents(opt, IndexOf(opt, es))| < U32 && opt.restartInterval >= 1;
    hide Closed, Image, BlockBytes, SeparatedBy, LayoutOf, BlockHandle.Encode, Fits, Options.Valid, TableBytes;
    SameLengths(opt, es);
    ClosedIsSeparated(opt, es);
    IndexIsSorted(Closed(opt, es).blocks, Closed(opt, es).seps, Closed(opt, es).handles);
    BuiltBlockHasLayout(IndexOf(opt, es), opt.restartInterval);
    LayoutHolds(IndexOf(opt, es), opt.restartInterval);
  }

  lemma HandleAlone(h: BlockHandle)
    requires h.offset < U64 && h.size < U64
    ensures DecodeHandle(h.Encode()) == Some((h, |h.Encode()|))
  {
    hide BlockHandle.Encode, DecodeHandle;
    HandleRoundTrip(h, []);
    assert h.Encode() + [] == h.Encode();
  }

  lemma IndexEntryShown(opt: Options, es: seq<Entry>, i: nat)
    requires Buildable(opt, es) && i < |Closed(opt, es).handles|
    ensures i < |IndexOf(opt, es)| && IndexEntryOk(IndexOf(opt, es)[i], Closed(opt, es).handles[i])
  {
    assert opt.blockSize >= 8;
    hide Closed, BlockHandle.Encode, DecodeHandle, Fits, Options.Valid, Buildable, DecodeVar, EncodeVar;
    SameLengths(opt, es);
    HandlesFit(opt, es);
    HandleAlone(Closed(opt, es).handles[i]);
  }

  lemma ViewParts(opt: Options, es: seq<Entry>, id: nat)
    requires Buildable(opt, es)
    ensures var v, st := ViewOf(opt, es, id), Closed(opt, es);
            && v.ix == LayoutOf(IndexOf(opt, es), opt.restartInterval)
            && v.src == Source(id, opt, TableBytes(opt, es), st.handles)
            && |v.blocks| == |st.blocks|
            && (forall i :: 0 <= i < |v.blocks| ==> v.blocks[i] == Some(LayoutOf(st.blocks[i], opt.restartInterval)))
  {
    hide Closed, LayoutOf, TableBytes, IndexOf;
  }

  lemma EntryOfViewShown(opt: Options, es: seq<Entry>, id: nat, i: nat)
    requires Buildable(opt, es) && i < |ViewOf(opt, es, id).blocks|
    ensures var v := ViewOf(opt, es, id);
            && i < |v.ix.es| && i < |v.src.handles|
            && IndexEntryOk(v.ix.es[i], v.src.handles[i])
            && ShowsBlock(v.src.Direct(i), v.blocks[i])
  {
    assert opt.blockSize >= 8;
    hide Closed, LayoutOf, Buildable, TableBytes, IndexOf, IndexEntryOk, ShowsBlock, ReadTableBlock, ViewOf;
    ViewParts(opt, es, id);
    SameLengths(opt, es);
    IndexHasLength(opt, es);
    LayoutHolds(IndexOf(opt, es), opt.restartInterval);
    IndexEntryShown(opt, es, i);
    BlockShown(opt, es, i);
  }

  lemma SourceOk(opt: Options, es: seq<Entry>, id: nat)
    requires Buildable(opt, es) && id < U64
    ensures ViewOf(opt, es, id).src.WellFormed()
  {
    hide Closed, LayoutOf, Buildable, TableBytes, IndexOf, ViewOf;
    ViewParts(opt, es, id);
    HandlesFit(opt, es);
  }

  lemma ViewIndexShown(opt: Options, es: seq<Entry>, id: nat)
    requires Buildable(opt, es)
    ensures var v := ViewOf(opt, es, id);
            && v.ix.Of(Contents(opt, IndexOf(opt, es))) && Sorted(v.ix.es)
            && |v.src.handles| == |v.blocks| == |v.ix.es|
  {
    assert opt.blockSize >= 8;
    hide *;
    ViewParts(opt, es, id);
    SameLengths(opt, es);
    IndexShown(opt, es);
    IndexHasLength(opt, es);
  }

  /** The file of a build shows its index and all its blocks. */
  lemma BuiltShows(opt: Options, es: seq<Entry>, id: nat)
    requires Buildable(opt, es) && id < U64
    ensures Shows(ViewOf(opt, es, id), Contents(opt, IndexOf(opt, es)))
  {
    assert opt.blockSize >= 8;
    hide Shows, Buildable, ViewOf, Contents, IndexOf, Layout.Of, Source.WellFormed, Source.Direct, Sorted,
         IndexEntryOk, ShowsBlock;
    var v := ViewOf(opt, es, id);
    ViewIndexShown(opt, es, id);
    SourceOk(opt, es, id);
    forall i | 0 <= i < |v.blocks| ensures ShownAt(v, i) {
      EntryOfViewShown(opt, es, id, i);
    }
    ShownIntro(v, Contents(opt, IndexOf(opt, es)));
  }

  ghost predicate ShownAt(v: View, i: nat)
    requires i < |v.blocks| == |v.ix.es| == |v.src.handles|
  {
    IndexEntryOk(v.ix.es[i], v.src.handles[i]) && ShowsBlock(v.src.Direct(i), v.blocks[i])
  }

  lemma ShownIntro(v: View, indexBlock: Bytes)
    requires v.ix.Of(indexBlock) && Sorted(v.ix.es) && v.src.WellFormed()
    requires |v.src.handles| == |v.blocks| == |v.ix.es|
    requires forall i :: 0 <= i < |v.blocks| ==> ShownAt(v, i)
    ensures Shows(v, indexBlock)
  {
    hide Layout.Of, Sorted, IndexEntryOk, ShowsBlock, Source.Direct, Source.WellFormed;
    forall i | 0 <= i < |v.blocks|
      ensures IndexEntryOk(v.ix.es[i], v.src.handles[i]) && ShowsBlock(v.src.Direct(i), v.blocks[i])
    {
      assert ShownAt(v, i);
    }
  }

  lemma IndexHasLength(opt: Options, es: seq<Entry>)
    requires opt.blockSize >= 8
    ensures |IndexOf(opt, es)| == |Closed(opt, es).blocks|
  {
    hide Closed;
    SameLengths(opt, es);
  }

  // ---------- opening it ----------

  ghost function PartsOf(opt: Options, es: seq<Entry>): Parts
    requires Buildable(opt, es)
  {
    var st := Closed(opt, es);
    SameLengths(opt, es);
    Parts(FooterOf(opt, st), Contents(opt, IndexOf(opt, es)), Some(NewReader(FilterData(opt, st))))
  }

  ghost function MetaOf(opt: Options, es: seq<Entry>): Layout
    requires Buildable(opt, es)
  {
    LayoutOf(MetaEntries(opt, Closed(opt, es)), opt.restartInterval)
  }

  lemma MetaFinds(opt: Options, st: Built)
    requires opt.policy.Valid()
    requires FilterHandle(opt, st).offset < U32 && FilterHandle(opt, st).size < U32
    ensures var meta := MetaEntries(opt, st);
            && Sorted(meta) && NonEmptyKeys(meta)
            && FilterLocation(meta) == Some(Some(FilterHandle(opt, st)))
  {
    hide BlockHandle.Encode, DecodeHandle, FilterHandle, Cmp;
    TotalOrder(FILTER_KEY, FILTER_KEY, FILTER_KEY);
    var h := FilterHandle(opt, st);
    HandleRoundTrip(h, []);
    assert h.Encode() + [] == h.Encode();
    FilterKeyIsFirst(MetaEntries(opt, st));
  }

  lemma FilterKeyIsFirst(meta: seq<Entry>)
    requires |meta| == 1 && meta[0].key == FILTER_KEY
    ensures LowerBound(meta, FILTER_KEY) == 0
  {
    hide Cmp;
    TotalOrder(FILTER_KEY, FILTER_KEY, FILTER_KEY);
  }

  lemma IndexReads(opt: Options, st: Built)
    requires opt.Valid() && |st.seps| == |st.handles|
    ensures ReadTableBlock(opt, Image(opt, st), FooterOf(opt, st).index)
         == Ok(Contents(opt, IndexEntries(st.seps, st.handles)))
    ensures ReadTableBlock(opt, Image(opt, st), FooterOf(opt, st).metaIndex) == Ok(Contents(opt, MetaEntries(opt, st)))
  {
    hide Frame, Contents, ReadTableBlock, FilterData, Footer.Encode, MetaEntries, IndexEntries, WithFilter;
    var foot := FooterOf(opt, st).Encode();
    ReadsBehind(opt, WithMeta(opt, st), Contents(opt, IndexEntries(st.seps, st.handles)), foot);
    var rest := Frame(opt, Contents(opt, IndexEntries(st.seps, st.handles)), opt.compression) + foot;
    ReadsBehind(opt, WithFilter(opt, st), Contents(opt, MetaEntries(opt, st)), rest);
    assert WithMeta(opt, st) + rest == Image(opt, st);
  }

  lemma FilterReads(opt: Options, st: Built)
    requires opt.policy.Valid() && |st.seps| == |st.handles|
    ensures ReadAt(Image(opt, st), |st.file|, |FilterData(opt, st)|) == FilterData(opt, st)
  {
    ImageExtendsData(opt, st);
    hide Image, WithFilter, FilterData, ReadAt;
    var file, pre := Image(opt, st), WithFilter(opt, st);
    SplitPrefix(pre, file);
    FilterReadsBack(opt, st, file[|pre|..]);
  }

  lemma FooterFound(opt: Options, st: Built)
    requires opt.policy.Valid() && |st.seps| == |st.handles| && |Image(opt, st)| < U32
    ensures |Image(opt, st)| >= FULL_FOOTER_LENGTH
    ensures DecodeFooter(ReadAt(Image(opt, st), |Image(opt, st)| - FULL_FOOTER_LENGTH, FULL_FOOTER_LENGTH))
         == Some(FooterOf(opt, st))
  {
    hide WithIndex, DecodeFooter, ReadAt, FooterOf, Footer.Encode;
    FooterIsWide(opt, st);
    FooterAtEnd(Image(opt, st), WithIndex(opt, st), FooterOf(opt, st));
  }

  lemma FooterIsWide(opt: Options, st: Built)
    requires opt.policy.Valid() && |st.seps| == |st.handles| && |Image(opt, st)| < U32
    ensures FooterOf(opt, st).Wide64()
  {
    ImageParts(opt, st);
  }

  lemma FooterAtEnd(image: Bytes, file: Bytes, f: Footer)
    requires f.Wide64() && image == file + f.Encode()
    ensures |image| >= FULL_FOOTER_LENGTH
    ensures DecodeFooter(ReadAt(image, |image| - FULL_FOOTER_LENGTH, FULL_FOOTER_LENGTH)) == Some(f)
  {
    FooterReadsBack(file, f);
  }

  lemma MetaShown(opt: Options, st: Built)
    requires opt.Valid() && |st.seps| == |st.handles| && |Image(opt, st)| < U32
    requires |Contents(opt, MetaEntries(opt, st))| < U32
    ensures var l := LayoutOf(MetaEntries(opt, st), opt.restartInterval);
            && l.Of(Contents(opt, MetaEntries(opt, st))) && Sorted(l.es)
            && FilterLocation(l.es) == Some(Some(FilterHandle(opt, st)))
  {
    ImageParts(opt, st);
    hide Image, BlockBytes, LayoutOf, FilterLocation, MetaEntries, FooterOf, FilterHandle, Cmp;
    MetaFinds(opt, st);
    BuiltBlockHasLayout(MetaEntries(opt, st), opt.restartInterval);
    LayoutHolds(MetaEntries(opt, st), opt.restartInterval);
  }

  lemma FiltersRead(opt: Options, st: Built)
    requires opt.policy.Valid() && |st.seps| == |st.handles|
    ensures FilterHandle(opt, st).size >= 5
    ensures ReadFilters(Image(opt, st), Some(FilterHandle(opt, st))) == Some(NewReader(FilterData(opt, st)))
  {
    hide Image, FilterData, ReadAt, NewReader, FilterBlockBytes;
    FilterReads(opt, st);
  }

  lemma ImageOpenable(opt: Options, st: Built)
    requires opt.Valid() && |st.seps| == |st.handles| && |Image(opt, st)| < U32
    requires |Contents(opt, MetaEntries(opt, st))| < U32
    ensures Openable(opt, Image(opt, st), |Image(opt, st)|, LayoutOf(MetaEntries(opt, st), opt.restartInterval))
  {
    FooterFound(opt, st);
    IndexReads(opt, st);
    MetaShown(opt, st);
    hide ReadTableBlock, Layout.Of, DecodeFooter, ReadAt, FilterLocation, Sorted, Image, Contents, MetaEntries,
         LayoutOf, FooterOf, FilterData, IndexEntries, Options.Valid;
  }

  lemma ImageOpened(opt: Options, st: Built)
    requires opt.Valid() && |st.seps| == |st.handles| && |Image(opt, st)| < U32
    requires |Contents(opt, MetaEntries(opt, st))| < U32
    requires Openable(opt, Image(opt, st), |Image(opt, st)|, LayoutOf(MetaEntries(opt, st), opt.restartInterval))
    ensures Opened(opt, Image(opt, st), |Image(opt, st)|, LayoutOf(MetaEntries(opt, st), opt.restartInterval))
         == Ok(Parts(FooterOf(opt, st), Contents(opt, IndexEntries(st.seps, st.handles)),
                     Some(NewReader(FilterData(opt, st)))))
  {
    assert opt.policy.Valid();
    hide ReadTableBlock, Layout.Of, DecodeFooter, ReadAt, FilterLocation, Sorted, Image, Contents, MetaEntries,
         LayoutOf, FooterOf, FilterData, IndexEntries, Options.Valid, ReadFilters, NewReader, FilterHandle;
    FooterFound(opt, st);
    IndexReads(opt, st);
    MetaShown(opt, st);
    FiltersRead(opt, st);
  }

  /** Where the data blocks end. */
  function DataEnd(st: Built): nat {
    if st.handles == [] then 0 else EndOf(st.handles[|st.handles| - 1])
  }

  lemma SectionLengths(opt: Options, st: Built)
    requires opt.policy.Valid() && |st.seps| == |st.handles|
    ensures var f := FooterOf(opt, st);
            && FilterHandle(opt, st).offset == |st.file|
            && EndOf(FilterHandle(opt, st)) == f.metaIndex.offset
            && EndOf(f.metaIndex) == f.index.offset
            && EndOf(f.index) + |f.Encode()| == |Image(opt, st)|
  {
    assert Packed(opt, FilterData(opt, st), NoCompression) == FilterData(opt, st);
    hide FilterData, Contents, Packed, Footer.Encode, MetaEntries, IndexEntries, Stored;
  }

  /**
   The sections of a built file follow one another without a gap: the data blocks, the filter block that the
   metaindex names, the metaindex, the index, and the footer, which fills the last 48 bytes.
   */
  lemma SectionsTile(opt: Options, es: seq<Entry>)
    requires Buildable(opt, es)
    ensures var file, st, f := TableBytes(opt, es), Closed(opt, es), PartsOf(opt, es).footer;
            && FilterHandle(opt, st).offset == DataEnd(st)
            && EndOf(FilterHandle(opt, st)) == f.metaIndex.offset
            && EndOf(f.metaIndex) == f.index.offset
            && EndOf(f.index) + FULL_FOOTER_LENGTH == |file|
            && file[EndOf(f.index)..] == f.Encode()
            && ReadTableBlock(opt, file, f.metaIndex)
               == Ok(Contents(opt, [Entry(FILTER_KEY, FilterHandle(opt, st).Encode())]))
            && ReadTableBlock(opt, file, f.index) == Ok(Contents(opt, IndexOf(opt, es)))
  {
    var st := Closed(opt, es);
    ValidOptions(opt);
    SameLengths(opt, es);
    TiledEnds(opt, es);
    SectionLengths(opt, st);
    ImageParts(opt, st);
    IndexReads(opt, st);
    FooterEnds(opt, st);
    hide Closed, Image, WithIndex, FooterOf, FilterHandle, Contents, Footer.Encode, ReadTableBlock, FilterData,
         Options.Valid, NewReader, DataEnd;
  }

  lemma TiledEnds(opt: Options, es: seq<Entry>)
    requires opt.Valid()
    ensures |Closed(opt, es).file| == DataEnd(Closed(opt, es))
  {
    TiledAll(opt, es);
    hide Closed, Placed;
  }

  lemma FooterEnds(opt: Options, st: Built)
    requires opt.policy.Valid() && |st.seps| == |st.handles| && |Image(opt, st)| < U32
    ensures |FooterOf(opt, st).Encode()| == FULL_FOOTER_LENGTH
    ensures Image(opt, st)[|Image(opt, st)| - FULL_FOOTER_LENGTH..] == FooterOf(opt, st).Encode()
  {
    ImageParts(opt, st);
    FooterRoundTrip(FooterOf(opt, st));
    hide WithIndex, FooterOf, Footer.Encode, BlockHandle.Encode, DecodeFooter;
  }

  /** A built file opens: footer, index, metaindex and filter block are found as they were written. */
  lemma BuiltOpens(opt: Options, es: seq<Entry>)
    requires Buildable(opt, es)
    ensures var file, meta := TableBytes(opt, es), MetaOf(opt, es);
            Openable(opt, file, |file|, meta) && Opened(opt, file, |file|, meta) == Ok(PartsOf(opt, es))
  {
    SameLengths(opt, es);
    assert |Contents(opt, MetaEntries(opt, Closed(opt, es)))| < U32;
    hide Closed, Image, Contents, LayoutOf, MetaEntries, FooterOf, IndexEntries, NewReader, FilterData,
         Options.Valid, Openable, Opened, Sorted;
    ImageOpenable(opt, Closed(opt, es));
    ImageOpened(opt, Closed(opt, es));
  }

  // ---------- filters ----------

  // What the built filter block answers for block `i`.
  lemma FilterOfBlock(opt: Options, st: Built, i: nat, key: Bytes)
    requires opt.policy.Valid() && Filtered(st) && i < |st.blocks| && st.blocks[i] != []
    requires st.handles[i].offset < U32
    requires st.filt.Addressable(opt.policy) && |FilterData(opt, st)| < U32
    ensures var r := NewReader(FilterData(opt, st));
            && r.Answers(st.handles[i].offset)
            && ((exists m :: 0 <= m < |st.blocks[i]| && st.blocks[i][m].key == key) ==>
                  r.KeyMayMatch(st.handles[i].offset, key))
  {
    var off := st.handles[i].offset;
    FilterIndexOf(off);
    var ix := off / 2048;
    var groups := st.filt.Finished();
    FinishedGroup(st.filt, ix, st.blocks[i][0].key);
    FinishedAddressable(opt.policy, st.filt);
    hide FilterIndex, FilterKeys.Finished, FilterBlockBytes, NewReader, FilterBlockReader.Answers,
         FilterBlockReader.KeyMayMatch, MayMatch, Checkable, BloomPolicy.FilterOf, FilterGroup, AllAddressable;
    BuiltFilterAnswers(opt.policy, groups, off, key);
    if m :| 0 <= m < |st.blocks[i]| && st.blocks[i][m].key == key {
      FinishedGroup(st.filt, ix, key);
    }
  }

  // A key in filter `ix` is there in the finished filter block as well.
  lemma FinishedGroup(fk: FilterKeys, ix: nat, key: Bytes)
    requires key in FilterGroup(fk, ix)
    ensures ix < |fk.Finished()| && key in fk.Finished()[ix]
  {
  }

  lemma FinishedAddressable(p: BloomPolicy, fk: FilterKeys)
    requires fk.Addressable(p)
    ensures AllAddressable(p, fk.Finished())
  {
    hide BloomPolicy.BodyLen;
  }

  lemma ClosedIsFiltered(opt: Options, es: seq<Entry>)
    requires Buildable(opt, es)
    ensures var st := Closed(opt, es);
            Filtered(st) && st.filt.Addressable(opt.policy) && |FilterData(opt, st)| < U32 && |st.file| < U32
  {
    hide Closed, Filtered, Image, FilterData, FilterKeys.Addressable;
    SameLengths(opt, es);
    FilteredAll(opt, es);
    ImageExtendsData(opt, Closed(opt, es));
  }

  /** Filters never hide a stored key, over a whole build. */
  lemma FiltersNeverHide(opt: Options, es: seq<Entry>, i: nat, key: Bytes)
    requires Buildable(opt, es) && i < |Closed(opt, es).blocks|
    ensures var st := Closed(opt, es);
            |st.handles| == |st.blocks| && NewReader(FilterData(opt, st)).Answers(st.handles[i].offset)
    ensures var st := Closed(opt, es);
            (exists m :: 0 <= m < |st.blocks[i]| && st.blocks[i][m].key == key) ==>
              NewReader(FilterData(opt, st)).KeyMayMatch(st.handles[i].offset, key)
  {
    assert opt.policy.Valid();
    hide Closed, Filtered, FilterData, FilterKeys.Addressable, NewReader, FilterBlockReader.Answers,
         FilterBlockReader.KeyMayMatch, Options.Valid, Flatten;
    HandlesFit(opt, es);
    ClosedIsFiltered(opt, es);
    ClosedIsSeparated(opt, es);
    FilterOfBlock(opt, Closed(opt, es), i, key);
  }

  // ---------- lookups ----------

  lemma {:induction false} LookupNone(b: seq<Entry>, key: Bytes)
    requires forall m :: 0 <= m < |b| ==> b[m].key != key
    ensures Lookup(b, key) == None
  {
    if b != [] {
      LookupNone(b[1..], key);
    }
  }

  // The index entry at or above a key is the chosen block.
  lemma BlockForIsChosen(seps: seq<Bytes>, handles: seq<BlockHandle>, bs: seq<seq<Entry>>, key: Bytes)
    requires |seps| == |handles| == |bs|
    ensures Chosen(bs, seps, key, LowerBound(IndexEntries(seps, handles), key))
  {
    hide BlockHandle.Encode;
    var i := LowerBound(IndexEntries(seps, handles), key);
    if i < |seps| {
      TotalOrder(key, seps[i], key);
    }
  }

  /** The answer `get` should give, and gives unless the key starts a block right behind its neighbour. */
  ghost function GetAnswer(opt: Options, es: seq<Entry>, key: Bytes): Option<Bytes>
    requires opt.blockSize >= 8
  {
    if Boundary(Closed(opt, es).blocks, key) then None else Lookup(es, key)
  }

  lemma BuiltFiltersAnswer(opt: Options, es: seq<Entry>, id: nat)
    requires Buildable(opt, es)
    ensures FiltersAnswer(ViewOf(opt, es, id), PartsOf(opt, es).filters)
  {
    hide Closed, NewReader, FilterBlockReader.Answers, FilterData, ViewOf, Fits, Contents, FooterOf;
    ViewParts(opt, es, id);
    SameLengths(opt, es);
    forall i | 0 <= i < |Closed(opt, es).handles|
      ensures NewReader(FilterData(opt, Closed(opt, es))).Answers(Closed(opt, es).handles[i].offset)
    {
      FiltersNeverHide(opt, es, i, []);
    }
  }

  // A block whose filter rules a key out does not hold it.
  lemma FilterAgreesWithBlock(opt: Options, es: seq<Entry>, i: nat, key: Bytes)
    requires Buildable(opt, es) && i < |Closed(opt, es).blocks|
    ensures var st := Closed(opt, es);
            && |st.handles| == |st.blocks| && NewReader(FilterData(opt, st)).Answers(st.handles[i].offset)
            && (!NewReader(FilterData(opt, st)).KeyMayMatch(st.handles[i].offset, key) ==>
                  Lookup(st.blocks[i], key) == None)
  {
    hide Closed, NewReader, FilterBlockReader.Answers, FilterBlockReader.KeyMayMatch, FilterData, Lookup, Fits,
         Sorted, NonEmptyKeys;
    FiltersNeverHide(opt, es, i, key);
    if !NewReader(FilterData(opt, Closed(opt, es))).KeyMayMatch(Closed(opt, es).handles[i].offset, key) {
      LookupNone(Closed(opt, es).blocks[i], key);
    }
  }

  lemma AnswerOfChosen(opt: Options, es: seq<Entry>, key: Bytes)
    requires Buildable(opt, es)
    ensures |IndexOf(opt, es)| == |Closed(opt, es).blocks|
    ensures var st := Closed(opt, es);
            var i := LowerBound(IndexOf(opt, es), key);
            if i < |st.blocks| && Lt(key, IndexOf(opt, es)[i].key)
            then GetAnswer(opt, es, key) == Lookup(st.blocks[i], key) && !Boundary(st.blocks, key)
            else GetAnswer(opt, es, key) == None && (Boundary(st.blocks, key) <==> Lookup(es, key).Some?)
  {
    assert opt.blockSize >= 8;
    hide Closed, Lookup, LowerBound, SeparatedBy, Boundary, Flatten, Fits, Options.Valid, BlockHandle.Encode, Cmp;
    var st := Closed(opt, es);
    SameLengths(opt, es);
    ClosedIsSeparated(opt, es);
    BlockForIsChosen(st.seps, st.handles, st.blocks, key);
    var i := LowerBound(IndexOf(opt, es), key);
    if i < |st.blocks| && Lt(key, st.seps[i]) {
      LookupInChosen(st.blocks, st.seps, key, i);
    } else {
      if i < |st.blocks| {
        TotalOrder(key, st.seps[i], key);
      }
      LookupAtSeparator(st.blocks, st.seps, key, i);
    }
  }

  lemma ViewIndex(opt: Options, es: seq<Entry>, id: nat)
    requires Buildable(opt, es)
    ensures ViewOf(opt, es, id).ix.es == IndexOf(opt, es)
  {
    ViewParts(opt, es, id);
    LayoutHolds(IndexOf(opt, es), opt.restartInterval);
  }

  /** On the bytes of a build, `get` answers as `GetAnswer` says, for every key. */
  lemma BuiltGet(opt: Options, es: seq<Entry>, id: nat, key: Bytes)
    requires Buildable(opt, es) && id < U64
    ensures Shows(ViewOf(opt, es, id), PartsOf(opt, es).indexBlock)
    ensures FiltersAnswer(ViewOf(opt, es, id), PartsOf(opt, es).filters)
    ensures GetSpec(ViewOf(opt, es, id), PartsOf(opt, es).filters, key) == Ok(GetAnswer(opt, es, key))
  {
    assert opt.blockSize >= 8;
    hide Closed, Lookup, LowerBound, Boundary, Buildable, GetAnswer, ViewOf, IndexOf, NewReader, FilterData,
         FilterBlockReader.Answers, FilterBlockReader.KeyMayMatch, Source.Direct, LayoutOf, Layout.Of, Contents;
    BuiltShows(opt, es, id);
    BuiltFiltersAnswer(opt, es, id);
    AnswerOfChosen(opt, es, key);
    ViewIndex(opt, es, id);
    ViewParts(opt, es, id);
    var i := LowerBound(IndexOf(opt, es), key);
    if i < |Closed(opt, es).blocks| {
      FilterAgreesWithBlock(opt, es, i, key);
      LayoutHolds(Closed(opt, es).blocks[i], opt.restartInterval);
    }
  }

  /**
   `get` on a built table is the lookup in the list of pairs, except for keys that start a block
   and extend the key before them by a zero byte: those it does not find, though they are there.
   */
  lemma GetIsLookupIffNoBoundary(opt: Options, es: seq<Entry>, id: nat, key: Bytes)
    requires Buildable(opt, es) && id < U64
    ensures Shows(ViewOf(opt, es, id), PartsOf(opt, es).indexBlock)
    ensures FiltersAnswer(ViewOf(opt, es, id), PartsOf(opt, es).filters)
    ensures GetSpec(ViewOf(opt, es, id), PartsOf(opt, es).filters, key) == Ok(Lookup(es, key))
       <==> !Boundary(Closed(opt, es).blocks, key)
  {
    assert opt.blockSize >= 8;
    hide Closed, Lookup, Boundary, Buildable, ViewOf, GetSpec, PartsOf, Shows, FiltersAnswer;
    BuiltGet(opt, es, id, key);
    AnswerOfChosen(opt, es, key);
  }
}

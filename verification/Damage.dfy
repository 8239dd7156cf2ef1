/**
 A built table one of whose data blocks has been damaged on disk: what its readers still get, and what
 they get in place of the damaged block.
 */
module Damage {
  import opened Bytes
  import opened Seqs
  import opened Codec
  import opened BlockFormat
  import opened FilterBlock
  import opened TableFormat
  import opened Build
  import opened TableImage
  import opened Separation
  import opened Caching
  import opened BlockCaching
  import opened TableReading
  import opened TableBuilding
  import opened EndToEnd
  import opened TableCursors
  import opened TableSeeking
  import opened TableIteration
  import opened Scans

  // ---------- reading what is not damaged ----------

  /** The files are equally long and differ at most in the bytes from `lo` up to `hi`. */
  ghost predicate SameOutside(f: Bytes, f': Bytes, lo: nat, hi: nat) {
    |f'| == |f| && forall k :: 0 <= k < |f| && !(lo <= k < hi) ==> f'[k] == f[k]
  }

  lemma ReadAtOutside(f: Bytes, f': Bytes, lo: nat, hi: nat, off: nat, n: nat)
    requires SameOutside(f, f', lo, hi) && (off + n <= lo || hi <= off)
    ensures ReadAt(f', off, n) == ReadAt(f, off, n)
  {
    var r, r' := ReadAt(f, off, n), ReadAt(f', off, n);
    forall k | 0 <= k < n ensures r'[k] == r[k] {
      ReadAtByte(f, off, n, k);
      ReadAtByte(f', off, n, k);
    }
  }

  /** A block that lies outside the damage reads as before. */
  lemma BlockOutside(opt: Options, f: Bytes, f': Bytes, lo: nat, hi: nat, h: BlockHandle)
    requires SameOutside(f, f', lo, hi) && (EndOf(h) <= lo || hi <= h.offset)
    ensures ReadTableBlock(opt, f', h) == ReadTableBlock(opt, f, h)
  {
    hide SameOutside, ReadAt, DecodeFixed, Verify;
    ReadAtOutside(f, f', lo, hi, h.offset, h.size + 5);
  }

  lemma {:induction false} ExtentsApart(opt: Options, st: Built, i: nat, k: nat)
    requires Tiled(opt, st) && i < k < |st.handles|
    ensures EndOf(st.handles[i]) <= st.handles[k].offset
    decreases k
  {
    assert EndOf(st.handles[k - 1]) == st.handles[k - 1 + 1].offset;
    if i < k - 1 {
      ExtentsApart(opt, st, i, k - 1);
    }
  }

  // ---------- a damaged block of a built table ----------

  /** `file` is the file of the build but for the bytes of block `k`, which can no longer be read. */
  ghost predicate Damaged(opt: Options, es: seq<Entry>, file: Bytes, k: nat) {
    && Buildable(opt, es)
    && var st := Closed(opt, es);
       && k < |st.handles|
       && SameOutside(TableBytes(opt, es), file, st.handles[k].offset, EndOf(st.handles[k]))
       && ReadTableBlock(opt, file, st.handles[k]).Err?
  }

  /**
   That is so, with the error `Corruption`, whenever the bytes of the block are replaced by as many with
   a checksum that is not theirs.
   */
  lemma WrongChecksumDamages(opt: Options, es: seq<Entry>, k: nat, pre: Bytes, data: Bytes, t: byte, sum: bv32,
                             post: Bytes)
    requires Buildable(opt, es) && k < |Closed(opt, es).handles|
    requires BlockHandle(|pre|, |data|) == Closed(opt, es).handles[k]
    requires SameOutside(TableBytes(opt, es), pre + Stored(data, t, sum) + post, |pre|, |pre| + |data| + 5)
    requires opt.crc(data + [t]) != sum
    ensures var file := pre + Stored(data, t, sum) + post;
            && Damaged(opt, es, file, k)
            && ReadTableBlock(opt, file, Closed(opt, es).handles[k]) == Err(Corruption)
  {
    ReadStored(opt, pre, data, t, sum, post);
    hide *;
    DamagedIntro(opt, es, k, pre + Stored(data, t, sum) + post);
  }

  lemma DamagedIntro(opt: Options, es: seq<Entry>, k: nat, file: Bytes)
    requires Buildable(opt, es) && k < |Closed(opt, es).handles|
    requires var h := Closed(opt, es).handles[k];
             SameOutside(TableBytes(opt, es), file, h.offset, h.offset + h.size + 5)
    requires ReadTableBlock(opt, file, Closed(opt, es).handles[k]).Err?
    ensures Damaged(opt, es, file, k)
  {
    hide ReadTableBlock, Closed, SameOutside, Fits, TableBytes, Sorted, NonEmptyKeys;
  }

  /** The view of the file: block `k` is missing. */
  ghost function DamagedView(opt: Options, es: seq<Entry>, id: nat, file: Bytes, k: nat): View
    requires Buildable(opt, es) && k < |Closed(opt, es).blocks|
  {
    hide Closed, LayoutOf;
    ViewParts(opt, es, id);
    var v := ViewOf(opt, es, id);
    v.(src := v.src.(file := file), blocks := v.blocks[k := None])
  }

  lemma DamagedLengths(opt: Options, es: seq<Entry>, file: Bytes, k: nat)
    requires Damaged(opt, es, file, k)
    ensures Buildable(opt, es) && opt.blockSize >= 8
    ensures k < |Closed(opt, es).blocks| == |Closed(opt, es).handles| == |Closed(opt, es).seps|
  {
    hide Closed, ReadTableBlock, Fits, TableBytes;
    SameLengths(opt, es);
  }

  lemma OtherBlockReads(opt: Options, es: seq<Entry>, file: Bytes, k: nat, i: nat)
    requires Damaged(opt, es, file, k) && i < |Closed(opt, es).handles| && i != k
    ensures ReadTableBlock(opt, file, Closed(opt, es).handles[i])
         == ReadTableBlock(opt, TableBytes(opt, es), Closed(opt, es).handles[i])
  {
    var st := Closed(opt, es);
    TiledAll(opt, es);
    hide Closed, ReadTableBlock, Fits, TableBytes, Tiled, SameOutside;
    if i < k {
      ExtentsApart(opt, st, i, k);
    } else {
      ExtentsApart(opt, st, k, i);
    }
    BlockOutside(opt, TableBytes(opt, es), file, st.handles[k].offset, EndOf(st.handles[k]), st.handles[i]);
  }

  lemma DamagedShownAt(opt: Options, es: seq<Entry>, id: nat, file: Bytes, k: nat, i: nat)
    requires Damaged(opt, es, file, k) && k < |Closed(opt, es).blocks|
    requires i < |ViewOf(opt, es, id).blocks|
    ensures var v := DamagedView(opt, es, id, file, k);
            && |v.blocks| == |v.ix.es| == |v.src.handles| == |ViewOf(opt, es, id).blocks|
            && ShownAt(v, i)
  {
    DamagedLengths(opt, es, file, k);
    ViewIndexShown(opt, es, id);
    ViewParts(opt, es, id);
    EntryOfViewShown(opt, es, id, i);
    assert ReadTableBlock(opt, file, Closed(opt, es).handles[k]).Err?;
    hide Closed, ReadTableBlock, Buildable, TableBytes, ViewOf, LayoutOf, Layout.Of, IndexOf, IndexEntryOk, Sorted;
    if i != k {
      OtherBlockReads(opt, es, file, k, i);
    }
  }

  lemma DamagedFrame(opt: Options, es: seq<Entry>, id: nat, file: Bytes, k: nat)
    requires Buildable(opt, es) && k < |Closed(opt, es).blocks| && id < U64
    ensures var v, w := DamagedView(opt, es, id, file, k), ViewOf(opt, es, id);
            && v.ix == w.ix && |v.blocks| == |w.blocks|
            && v.src.handles == w.src.handles && v.src.WellFormed()
  {
    SourceOk(opt, es, id);
    WellFormedWithFile(ViewOf(opt, es, id).src, file);
    hide Closed, Buildable, ViewOf, LayoutOf, Fits, TableBytes, Source.WellFormed;
  }

  lemma WellFormedWithFile(src: Source, file: Bytes)
    requires src.WellFormed()
    ensures src.(file := file).WellFormed()
  {
  }

  /** The damaged file still shows the index and every other block. */
  lemma DamagedShows(opt: Options, es: seq<Entry>, id: nat, file: Bytes, k: nat)
    requires Damaged(opt, es, file, k) && id < U64
    ensures k < |Closed(opt, es).blocks|
    ensures Shows(DamagedView(opt, es, id, file, k), Contents(opt, IndexOf(opt, es)))
  {
    DamagedLengths(opt, es, file, k);
    DamagedFrame(opt, es, id, file, k);
    ViewIndexShown(opt, es, id);
    var v := DamagedView(opt, es, id, file, k);
    hide *;
    forall i | 0 <= i < |v.blocks| ensures ShownAt(v, i) {
      DamagedShownAt(opt, es, id, file, k, i);
    }
    ShownIntro(v, Contents(opt, IndexOf(opt, es)));
  }

  // ---------- opening it ----------

  predicate FooterPoints(footer: Option<Footer>, hi: nat) {
    footer.Some? ==> hi <= footer.value.index.offset && hi <= footer.value.metaIndex.offset
  }

  predicate LocationPoints(location: Option<Option<BlockHandle>>, hi: nat) {
    location.Some? && location.value.Some? ==> hi <= location.value.value.offset
  }

  /** `Table::new` reads nothing in front of `hi`. */
  ghost predicate OpensBehind(file: Bytes, meta: Layout, hi: nat) {
    && |file| >= FULL_FOOTER_LENGTH && hi <= |file| - FULL_FOOTER_LENGTH
    && FooterPoints(DecodeFooter(ReadAt(file, |file| - FULL_FOOTER_LENGTH, FULL_FOOTER_LENGTH)), hi)
    && LocationPoints(FilterLocation(meta.es), hi)
  }

  lemma BehindIsBehind(file: Bytes, meta: Layout, lo: nat, hi: nat)
    requires OpensBehind(file, meta, hi) && lo <= hi
    ensures OpensBehind(file, meta, lo)
  {
    hide DecodeFooter, ReadAt, FilterLocation;
  }

  lemma ImageBehind(opt: Options, st: Built)
    requires opt.Valid() && |st.seps| == |st.handles| && |Image(opt, st)| < U32
    requires |Contents(opt, MetaEntries(opt, st))| < U32
    ensures OpensBehind(Image(opt, st), LayoutOf(MetaEntries(opt, st), opt.restartInterval), |st.file|)
  {
    ValidOptions(opt);
    SectionLengths(opt, st);
    FooterFound(opt, st);
    MetaShown(opt, st);
    FooterEnds(opt, st);
    hide Image, FooterOf, FilterHandle, MetaEntries, LayoutOf, Layout.Of, Sorted, Contents, DecodeFooter, ReadAt,
         FilterLocation, Footer.Encode, Options.Valid;
  }

  /** In a built table all it reads lies behind the data blocks. */
  lemma BuiltOpensBehind(opt: Options, es: seq<Entry>)
    requires Buildable(opt, es)
    ensures OpensBehind(TableBytes(opt, es), MetaOf(opt, es), |Closed(opt, es).file|)
  {
    ValidOptions(opt);
    SameLengths(opt, es);
    assert |Contents(opt, MetaEntries(opt, Closed(opt, es)))| < U32;
    hide Closed, Image, Contents, LayoutOf, MetaEntries, Options.Valid, OpensBehind, Sorted, NonEmptyKeys;
    ImageBehind(opt, Closed(opt, es));
  }

  lemma OpenOutside(opt: Options, f: Bytes, f': Bytes, lo: nat, hi: nat, meta: Layout)
    requires SameOutside(f, f', lo, hi) && Openable(opt, f, |f|, meta) && OpensBehind(f, meta, hi)
    ensures Openable(opt, f', |f'|, meta) && Opened(opt, f', |f'|, meta) == Opened(opt, f, |f|, meta)
  {
    hide SameOutside, ReadAt, ReadTableBlock, DecodeFooter, FilterLocation, Layout.Of, Sorted, NewReader;
    SameLength(f, f', lo, hi);
    ReadAtOutside(f, f', lo, hi, |f| - FULL_FOOTER_LENGTH, FULL_FOOTER_LENGTH);
    var footer := DecodeFooter(ReadAt(f, |f| - FULL_FOOTER_LENGTH, FULL_FOOTER_LENGTH)).value;
    BlockOutside(opt, f, f', lo, hi, footer.index);
    BlockOutside(opt, f, f', lo, hi, footer.metaIndex);
    if FilterLocation(meta.es).Some? && FilterLocation(meta.es).value.Some? {
      var h := FilterLocation(meta.es).value.value;
      ReadAtOutside(f, f', lo, hi, h.offset, h.size);
    }
  }

  lemma SameLength(f: Bytes, f': Bytes, lo: nat, hi: nat)
    requires SameOutside(f, f', lo, hi)
    ensures |f'| == |f|
  {
  }

  /** The damaged file opens as the intact one does. */
  lemma DamagedOpens(opt: Options, es: seq<Entry>, file: Bytes, k: nat)
    requires Damaged(opt, es, file, k)
    ensures var meta := MetaOf(opt, es);
            Openable(opt, file, |file|, meta) && Opened(opt, file, |file|, meta) == Ok(PartsOf(opt, es))
  {
    var st := Closed(opt, es);
    DamagedLengths(opt, es, file, k);
    assert SameOutside(TableBytes(opt, es), file, st.handles[k].offset, EndOf(st.handles[k]));
    ValidOptions(opt);
    EndsWithinData(opt, es, k);
    hide *;
    BuiltOpensBehind(opt, es);
    BehindIsBehind(TableBytes(opt, es), MetaOf(opt, es), EndOf(st.handles[k]), |st.file|);
    BuiltOpens(opt, es);
    OpenOutside(opt, TableBytes(opt, es), file, st.handles[k].offset, EndOf(st.handles[k]), MetaOf(opt, es));
  }

  lemma EndsWithinData(opt: Options, es: seq<Entry>, k: nat)
    requires opt.Valid() && k < |Closed(opt, es).handles|
    ensures EndOf(Closed(opt, es).handles[k]) <= |Closed(opt, es).file|
  {
    hide Closed, Tiled;
    TiledAll(opt, es);
    OffsetsWithinFile(opt, Closed(opt, es), k);
  }

  // ---------- lookups ----------

  // Losing block `k` makes exactly those lookups fail that read it.
  lemma GetWithoutBlock(v: View, v': View, filters: Option<FilterBlockReader>, key: Bytes, k: nat)
    requires |v.src.handles| == |v.blocks| == |v.ix.es| && k < |v.blocks|
    requires v'.ix == v.ix && v'.src.handles == v.src.handles && v'.blocks == v.blocks[k := None]
    requires FiltersAnswer(v, filters) && FiltersAnswer(v', filters)
    requires forall i :: 0 <= i < |v.blocks| ==> ShowsBlock(v.src.Direct(i), v.blocks[i]) && v.blocks[i].Some?
    requires forall i :: 0 <= i < |v'.blocks| ==> ShowsBlock(v'.src.Direct(i), v'.blocks[i])
    ensures GetSpec(v', filters, key)
         == if Reads(v', filters, key, k) then Err(v'.src.Direct(k).code) else GetSpec(v, filters, key)
  {
    hide ReadTableBlock, FilterBlockReader.Answers, FilterBlockReader.KeyMayMatch, LowerBound, Lookup, Layout.Of,
         Source.Direct, Cmp, Sorted;
    if Reads(v', filters, key, k) {
      ReadsOnlyChosen(v', filters, key, k);
    }
  }

  /** What the damaged file shows of its blocks, and that the filters can be asked about all of them. */
  lemma DamagedAnswers(opt: Options, es: seq<Entry>, id: nat, file: Bytes, k: nat)
    requires Damaged(opt, es, file, k) && id < U64
    ensures k < |Closed(opt, es).blocks|
    ensures var v := DamagedView(opt, es, id, file, k);
            && Shows(v, PartsOf(opt, es).indexBlock) && FiltersAnswer(v, PartsOf(opt, es).filters)
  {
    DamagedShows(opt, es, id, file, k);
    BuiltFiltersAnswer(opt, es, id);
    DamagedFrame(opt, es, id, file, k);
    hide Closed, Shows, Buildable, ViewOf, DamagedView, FilterBlockReader.Answers, Contents, FilterData, NewReader,
         FooterOf, Damaged, IndexEntries;
  }

  /** A lookup fails exactly when it reads the damaged block; every other one answers as before the damage. */
  lemma DamagedGet(opt: Options, es: seq<Entry>, id: nat, file: Bytes, k: nat, key: Bytes)
    requires Damaged(opt, es, file, k) && id < U64
    ensures k < |Closed(opt, es).blocks| == |Closed(opt, es).handles|
    ensures var v, filters := DamagedView(opt, es, id, file, k), PartsOf(opt, es).filters;
            && Shows(v, PartsOf(opt, es).indexBlock) && FiltersAnswer(v, filters)
            && GetSpec(v, filters, key)
               == (if Reads(v, filters, key, k) then Err(ReadTableBlock(opt, file, Closed(opt, es).handles[k]).code)
                   else Ok(GetAnswer(opt, es, key)))
  {
    DamagedLengths(opt, es, file, k);
    DamagedAnswers(opt, es, id, file, k);
    DamagedDiffers(opt, es, id, file, k);
    BuiltGet(opt, es, id, key);
    var v, v' := ViewOf(opt, es, id), DamagedView(opt, es, id, file, k);
    ShownBlocks(v, PartsOf(opt, es).indexBlock);
    ShownBlocks(v', PartsOf(opt, es).indexBlock);
    hide *;
    GetWithoutBlock(v, v', PartsOf(opt, es).filters, key, k);
  }

  lemma ShownBlocks(v: View, indexBlock: Bytes)
    requires Shows(v, indexBlock)
    ensures |v.src.handles| == |v.blocks| == |v.ix.es|
    ensures forall i :: 0 <= i < |v.blocks| ==> ShowsBlock(v.src.Direct(i), v.blocks[i])
  {
  }

  lemma DamagedDiffers(opt: Options, es: seq<Entry>, id: nat, file: Bytes, k: nat)
    requires Buildable(opt, es) && k < |Closed(opt, es).blocks|
    ensures |Closed(opt, es).handles| == |Closed(opt, es).blocks|
    ensures var v, v' := ViewOf(opt, es, id), DamagedView(opt, es, id, file, k);
            && |v.blocks| == |Closed(opt, es).blocks|
            && v'.ix == v.ix && v'.src.handles == v.src.handles && v'.blocks == v.blocks[k := None]
            && (forall i :: 0 <= i < |v.blocks| ==> v.blocks[i].Some?)
            && v'.src.Direct(k) == ReadTableBlock(opt, file, Closed(opt, es).handles[k])
  {
    ValidOptions(opt);
    SameLengths(opt, es);
    ViewParts(opt, es, id);
    hide Closed, Buildable, ViewOf, LayoutOf, TableBytes, IndexOf, ReadTableBlock, Options.Valid;
  }

  // A lookup of a stored key reads its own block and no other, unless the key is a boundary.
  lemma StoredReads(v: View, filters: Option<FilterBlockReader>, bs: seq<seq<Entry>>, seps: seq<Bytes>,
                    k: nat, j: nat, m: nat)
    requires SeparatedBy(bs, seps) && IndexHas(v.ix.es, seps) && |v.src.handles| == |v.ix.es|
    requires FiltersAnswer(v, filters)
    requires k < |bs| && j < |bs| && m < |bs[j]|
    requires filters.Some? && j == k ==> filters.value.KeyMayMatch(v.src.handles[k].offset, bs[j][m].key)
    ensures Reads(v, filters, bs[j][m].key, k) <==> j == k && !Boundary(bs, bs[j][m].key)
  {
    var key := bs[j][m].key;
    var i := LowerBound(v.ix.es, key);
    SeekChooses(bs, seps, v.ix.es, key);
    BoundaryIsBeforeItsBlock(bs, seps, key, i, j, m);
    KeyBelow(bs, seps, j, m, j);
    TotalOrder(key, seps[k], key);
    if j == i + 1 {
      KeyAbove(bs, seps, j, m, i);
    }
    hide SeparatedBy, Boundary, LowerBound, FilterBlockReader.KeyMayMatch, FilterBlockReader.Answers, Chosen, Cmp;
    if Reads(v, filters, key, k) {
      ReadsOnlyChosen(v, filters, key, k);
    }
  }

  lemma ReadsOfStored(opt: Options, es: seq<Entry>, id: nat, file: Bytes, k: nat, j: nat, m: nat)
    requires Damaged(opt, es, file, k) && id < U64
    requires j < |Closed(opt, es).blocks| && m < |Closed(opt, es).blocks[j]|
    ensures k < |Closed(opt, es).blocks|
    ensures var v, filters := DamagedView(opt, es, id, file, k), PartsOf(opt, es).filters;
            var bs := Closed(opt, es).blocks;
            && |v.src.handles| == |v.ix.es| && FiltersAnswer(v, filters)
            && (Reads(v, filters, bs[j][m].key, k) <==> j == k && !Boundary(bs, bs[j][m].key))
  {
    var st := Closed(opt, es);
    DamagedLengths(opt, es, file, k);
    DamagedAnswers(opt, es, id, file, k);
    DamagedHasIndex(opt, es, id, file, k);
    FilterKeeps(opt, es, id, file, k, st.blocks[j][m].key);
    ClosedIsSeparated(opt, es);
    var v, filters := DamagedView(opt, es, id, file, k), PartsOf(opt, es).filters;
    hide *;
    StoredReads(v, filters, st.blocks, st.seps, k, j, m);
  }

  lemma DamagedHasIndex(opt: Options, es: seq<Entry>, id: nat, file: Bytes, k: nat)
    requires Buildable(opt, es) && k < |Closed(opt, es).blocks|
    ensures var v := DamagedView(opt, es, id, file, k);
            && IndexHas(v.ix.es, Closed(opt, es).seps)
            && v.src.handles == Closed(opt, es).handles && |v.src.handles| == |v.ix.es|
  {
    ViewHandles(opt, es, id, file, k);
    ViewIndex(opt, es, id);
    ValidOptions(opt);
    SameLengths(opt, es);
    IndexHasSeps(opt, es);
    hide Closed, Buildable, ViewOf, LayoutOf, TableBytes, Options.Valid, BlockHandle.Encode;
  }

  lemma FilterKeeps(opt: Options, es: seq<Entry>, id: nat, file: Bytes, k: nat, key: Bytes)
    requires Buildable(opt, es) && k < |Closed(opt, es).blocks|
    requires FiltersAnswer(DamagedView(opt, es, id, file, k), PartsOf(opt, es).filters)
    ensures k < |DamagedView(opt, es, id, file, k).src.handles|
    ensures (exists m :: 0 <= m < |Closed(opt, es).blocks[k]| && Closed(opt, es).blocks[k][m].key == key) ==>
              PartsOf(opt, es).filters.value.KeyMayMatch(DamagedView(opt, es, id, file, k).src.handles[k].offset, key)
  {
    FiltersNeverHide(opt, es, k, key);
    ViewHandles(opt, es, id, file, k);
    hide Closed, Buildable, DamagedView, FilterBlockReader.KeyMayMatch, FilterBlockReader.Answers, NewReader,
         FilterData, FooterOf, Contents;
  }

  lemma ViewHandles(opt: Options, es: seq<Entry>, id: nat, file: Bytes, k: nat)
    requires Buildable(opt, es) && k < |Closed(opt, es).blocks|
    ensures DamagedView(opt, es, id, file, k).src.handles == Closed(opt, es).handles
  {
    ViewParts(opt, es, id);
    hide Closed, Buildable, ViewOf, LayoutOf, TableBytes, IndexOf;
  }

  lemma AnswerForStored(opt: Options, es: seq<Entry>, j: nat, m: nat)
    requires Buildable(opt, es) && j < |Closed(opt, es).blocks| && m < |Closed(opt, es).blocks[j]|
    ensures var bs := Closed(opt, es).blocks;
            GetAnswer(opt, es, bs[j][m].key) == if Boundary(bs, bs[j][m].key) then None else Some(bs[j][m].val)
  {
    ClosedIsSeparated(opt, es);
    var bs := Closed(opt, es).blocks;
    var e: Entry := bs[j][m];
    hide Closed, SeparatedBy, Flatten, Boundary, Fits, Lookup;
    assert e in bs[j];
    InFlatten(bs, e);
    LookupMeaning(es, e.key, e.val);
  }

  /**
   What a lookup of a pair's key gives after the damage: the error for the pairs of the damaged block,
   the value for all others. A boundary key is not found, as before the damage, whatever block it is in.
   */
  lemma DamagedKey(opt: Options, es: seq<Entry>, id: nat, file: Bytes, k: nat, j: nat, m: nat)
    requires Damaged(opt, es, file, k) && id < U64
    requires j < |Closed(opt, es).blocks| && m < |Closed(opt, es).blocks[j]|
    ensures k < |Closed(opt, es).blocks| == |Closed(opt, es).handles|
    ensures var v, filters := DamagedView(opt, es, id, file, k), PartsOf(opt, es).filters;
            var st := Closed(opt, es);
            var Entry(key, val) := st.blocks[j][m];
            && Shows(v, PartsOf(opt, es).indexBlock) && FiltersAnswer(v, filters)
            && GetSpec(v, filters, key)
               == (if Boundary(st.blocks, key) then Ok(None)
                   else if j == k then Err(ReadTableBlock(opt, file, st.handles[k]).code)
                   else Ok(Some(val)))
  {
    DamagedLengths(opt, es, file, k);
    hide *;
    DamagedGet(opt, es, id, file, k, Closed(opt, es).blocks[j][m].key);
    ReadsOfStored(opt, es, id, file, k, j, m);
    AnswerForStored(opt, es, j, m);
  }

  // The table opened on the damaged file, on a cache of any history.
  method OpenDamaged(opt: Options, file: Bytes, ghost es: seq<Entry>, ghost k: nat, cache: Cache<Bytes>)
      returns (table: Table)
    requires Damaged(opt, es, file, k)
    requires cache.Valid() && IdsUpTo(cache.slots, cache.id) && cache.id + 1 < U64
    modifies cache`id
    ensures Buildable(opt, es) && k < |Closed(opt, es).blocks| && table.cacheId < U64
    ensures table.cache == cache && table.parts == PartsOf(opt, es)
    ensures table.Valid(DamagedView(opt, es, table.cacheId, file, k))
  {
    DamagedLengths(opt, es, file, k);
    DamagedOpens(opt, es, file, k);
    hide *;
    var result := OpenTable(opt, file, |file|, cache, MetaOf(opt, es));
    table := result.value;
    DamagedFrame(opt, es, table.cacheId, file, k);
    DamagedAnswers(opt, es, table.cacheId, file, k);
    DamagedSource(opt, es, table.cacheId, file, k);
    NewIdAgrees(cache.slots, old(cache.id), DamagedView(opt, es, table.cacheId, file, k).src);
    OpenIsValid(table, DamagedView(opt, es, table.cacheId, file, k));
  }

  lemma DamagedSource(opt: Options, es: seq<Entry>, id: nat, file: Bytes, k: nat)
    requires Buildable(opt, es) && k < |Closed(opt, es).blocks|
    ensures var src := DamagedView(opt, es, id, file, k).src; src.id == id && src.opt == opt && src.file == file
  {
    ViewParts(opt, es, id);
    hide Closed, Buildable, ViewOf, LayoutOf, TableBytes, IndexOf;
  }

  lemma OpenIsValid(table: Table, v: View)
    requires v.src.id == table.cacheId && v.src.opt == table.opt && v.src.file == table.file
    requires Shows(v, table.parts.indexBlock) && table.cache.Valid() && Agrees(table.cache.slots, v.src)
    ensures table.Valid(v)
  {
    hide Shows, Agrees, Cache.Valid;
  }

  /** Opening the damaged file and looking up the key of a pair that was stored. */
  method GetDamaged(opt: Options, file: Bytes, key: Bytes, cache: Cache<Bytes>, ghost es: seq<Entry>,
                    ghost k: nat, ghost j: nat, ghost m: nat) returns (r: Result<Option<Bytes>>)
    requires Damaged(opt, es, file, k)
    requires cache.Valid() && IdsUpTo(cache.slots, cache.id) && cache.id + 1 < U64
    requires j < |Closed(opt, es).blocks| && m < |Closed(opt, es).blocks[j]|
    requires key == Closed(opt, es).blocks[j][m].key
    modifies cache.Repr()
    ensures k < |Closed(opt, es).handles|
    ensures var st := Closed(opt, es);
            r == if Boundary(st.blocks, key) then Ok(None)
                 else if j == k then Err(ReadTableBlock(opt, file, st.handles[k]).code)
                 else Ok(Some(st.blocks[j][m].val))
  {
    DamagedLengths(opt, es, file, k);
    hide *;
    var table := OpenDamaged(opt, file, es, k, cache);
    DamagedAnswers(opt, es, table.cacheId, file, k);
    DamagedKey(opt, es, table.cacheId, file, k, j, m);
    r := table.Get(key, DamagedView(opt, es, table.cacheId, file, k));
  }

  // ---------- iterating ----------

  lemma {:induction false} FlattenConcat(a: seq<seq<Entry>>, b: seq<seq<Entry>>)
    ensures Flatten(a + b) == Flatten(a) + Flatten(b)
    decreases |b|
  {
    if b == [] {
      assert a + b == a;
    } else {
      var n := |b| - 1;
      FlattenConcat(a, b[..n]);
      FlattenSnoc(a + b[..n], b[n]);
      assert a + b == a + b[..n] + [b[n]];
      Assoc(Flatten(a), Flatten(b[..n]), b[n]);
    }
  }

  lemma {:induction false} ReadableWithout(bs: seq<seq<Entry>>, k: nat)
    requires k < |bs|
    ensures Readable(Whole(bs)[k := None]) == bs[..k] + bs[k + 1..]
    decreases |bs|
  {
    var n := |bs| - 1;
    var damaged: Blocks := Whole(bs)[k := None];
    if k == n {
      assert damaged[..n] == Whole(bs[..n]);
      ReadableWhole(bs[..n]);
    } else {
      assert damaged[..n] == Whole(bs[..n])[k := None];
      ReadableWithout(bs[..n], k);
      assert damaged[n] == Some(bs[n]);
    }
  }

  lemma FlattenAround(bs: seq<seq<Entry>>, k: nat)
    requires k < |bs|
    ensures Flatten(bs) == Flatten(bs[..k]) + bs[k] + Flatten(bs[k + 1..])
  {
    hide Flatten;
    SplitAround(bs, k);
    FlattenConcat(bs[..k] + [bs[k]], bs[k + 1..]);
    FlattenSnoc(bs[..k], bs[k]);
  }

  lemma TraverseWithout(bs: seq<seq<Entry>>, k: nat)
    requires k < |bs|
    ensures var blocks := Whole(bs)[k := None];
            Traverse(blocks, START_OF_TABLE) == (Flatten(bs[..k]) + Flatten(bs[k + 1..]), EndOfTable(blocks))
  {
    TraverseFromStart(Whole(bs)[k := None], START_OF_TABLE);
    ReadableWithout(bs, k);
    hide Flatten, Readable, Traverse, Rest;
    FlattenConcat(bs[..k], bs[k + 1..]);
  }

  lemma BlocksWithout(v: View, v': View, k: nat)
    requires k < |v.blocks| && v'.blocks == v.blocks[k := None]
    ensures BlocksOf(v') == BlocksOf(v)[k := None]
  {
  }

  lemma DamagedBlocks(opt: Options, es: seq<Entry>, id: nat, file: Bytes, k: nat)
    requires Buildable(opt, es) && k < |Closed(opt, es).blocks|
    ensures BlocksOf(DamagedView(opt, es, id, file, k)) == Whole(Closed(opt, es).blocks)[k := None]
  {
    hide *;
    DamagedDiffers(opt, es, id, file, k);
    BuiltBlocks(opt, es, id);
    BlocksWithout(ViewOf(opt, es, id), DamagedView(opt, es, id, file, k), k);
  }

  /** A traversal of the damaged table yields the pairs of all other blocks, in order. */
  lemma DamagedScan(opt: Options, es: seq<Entry>, id: nat, file: Bytes, k: nat)
    requires Damaged(opt, es, file, k)
    ensures k < |Closed(opt, es).blocks|
    ensures var bs := Closed(opt, es).blocks;
            var blocks := BlocksOf(DamagedView(opt, es, id, file, k));
            && es == Flatten(bs[..k]) + bs[k] + Flatten(bs[k + 1..])
            && Traverse(blocks, START_OF_TABLE) == (Flatten(bs[..k]) + Flatten(bs[k + 1..]), EndOfTable(blocks))
  {
    DamagedLengths(opt, es, file, k);
    hide *;
    DamagedBlocks(opt, es, id, file, k);
    ClosedIsSeparated(opt, es);
    TraverseWithout(Closed(opt, es).blocks, k);
    FlattenAround(Closed(opt, es).blocks, k);
  }
}

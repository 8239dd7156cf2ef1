/**
 `Table`: opening a table file, reading its blocks through the cache, looking up keys.
 */
module TableReading {
  import opened Bytes
  import opened Codec
  import opened BlockFormat
  import opened BlockIteration
  import opened Cursors
  import opened Bloom
  import opened FilterBlock
  import opened TableFormat
  import opened Lru
  import opened Caching
  import opened BlockCaching
  import opened TableImage

  // ---------- what a file shows ----------

  /**
   The index of a table, and for every block it points to either its entries or the fact that the
   block cannot be read (damaged, say).
   */
  datatype View = View(ix: Layout, src: Source, blocks: seq<Option<Layout>>)

  ghost predicate ShowsBlock(r: Result<Bytes>, b: Option<Layout>) {
    if b.Some? then r.Ok? && b.value.Of(r.value) && Sorted(b.value.es) else r.Err?
  }

  ghost predicate Shows(v: View, indexBlock: Bytes) {
    && v.ix.Of(indexBlock) && Sorted(v.ix.es)
    && |v.src.handles| == |v.blocks| == |v.ix.es|
    && v.src.WellFormed()
    && (forall i :: 0 <= i < |v.blocks| ==> IndexEntryOk(v.ix.es[i], v.src.handles[i]))
    && (forall i :: 0 <= i < |v.blocks| ==> ShowsBlock(v.src.Direct(i), v.blocks[i]))
  }

  predicate IndexEntryOk(e: Entry, h: BlockHandle) {
    DecodeHandle(e.val).Some? && DecodeHandle(e.val).value.0 == h
  }

  // ---------- opening ----------

  /** `filters` is absent when the metaindex names no filter block or an empty one. */
  datatype Parts = Parts(footer: Footer, indexBlock: Bytes, filters: Option<FilterBlockReader>)

  // Where `read_filter_block` looks: the first metaindex entry at or above the filter's name.
  function FilterLocation(meta: seq<Entry>): Option<Option<BlockHandle>> {
    var i := LowerBound(meta, FILTER_KEY);
    if i == |meta| then Some(None)
    else
      match DecodeHandle(meta[i].val)
      case None => None
      case Some((h, _)) => Some(Some(h))
  }

  /** No unwrap or assertion of `Table::new` fails; `meta` is what the metaindex block holds. */
  ghost predicate Openable(opt: Options, file: Bytes, size: nat, meta: Layout) {
    && size >= FULL_FOOTER_LENGTH
    && DecodeFooter(ReadAt(file, size - FULL_FOOTER_LENGTH, FULL_FOOTER_LENGTH)).Some?
    && var footer := DecodeFooter(ReadAt(file, size - FULL_FOOTER_LENGTH, FULL_FOOTER_LENGTH)).value;
       ReadTableBlock(opt, file, footer.metaIndex).Ok? ==>
         && meta.Of(ReadTableBlock(opt, file, footer.metaIndex).value) && Sorted(meta.es)
         && FilterLocation(meta.es).Some?
         && (FilterLocation(meta.es).value.Some? ==>
               FilterLocation(meta.es).value.value.size == 0 || FilterLocation(meta.es).value.value.size >= 5)
  }

  function ReadFilters(file: Bytes, location: Option<BlockHandle>): Option<FilterBlockReader>
    requires location.Some? ==> location.value.size == 0 || location.value.size >= 5
  {
    if location.Some? && location.value.size > 0 then
      Some(NewReader(ReadAt(file, location.value.offset, location.value.size)))
    else None
  }

  ghost function Opened(opt: Options, file: Bytes, size: nat, meta: Layout): Result<Parts>
    requires Openable(opt, file, size, meta)
  {
    var footer := DecodeFooter(ReadAt(file, size - FULL_FOOTER_LENGTH, FULL_FOOTER_LENGTH)).value;
    match ReadTableBlock(opt, file, footer.index)
    case Err(code) => Err(code)
    case Ok(indexBlock) =>
      match ReadTableBlock(opt, file, footer.metaIndex)
      case Err(code) => Err(code)
      case Ok(_) => Ok(Parts(footer, indexBlock, ReadFilters(file, FilterLocation(meta.es).value)))
  }

  /** Opening fails exactly when the index block or the metaindex block cannot be read, with the error of the first. */
  lemma OpenOutcome(opt: Options, file: Bytes, size: nat, meta: Layout)
    requires Openable(opt, file, size, meta)
    ensures var footer := DecodeFooter(ReadAt(file, size - FULL_FOOTER_LENGTH, FULL_FOOTER_LENGTH)).value;
            var index := ReadTableBlock(opt, file, footer.index);
            var metaIndex := ReadTableBlock(opt, file, footer.metaIndex);
            var r := Opened(opt, file, size, meta);
            && (r.Err? <==> index.Err? || metaIndex.Err?)
            && (index.Err? ==> r == Err(index.code))
            && (index.Ok? && metaIndex.Err? ==> r == Err(metaIndex.code))
            && (r.Ok? ==> r.value.footer == footer && r.value.indexBlock == index.value)
  {
    hide Layout.Of, DecodeFooter, ReadAt, ReadTableBlock, FilterLocation, ReadFilters, Sorted;
  }

  /** A file whose index block does not have its checksum is not opened. */
  lemma DamagedIndex(opt: Options, pre: Bytes, data: Bytes, t: byte, sum: bv32, post: Bytes, size: nat, meta: Layout)
    requires var file := pre + Stored(data, t, sum) + post;
             && Openable(opt, file, size, meta)
             && DecodeFooter(ReadAt(file, size - FULL_FOOTER_LENGTH, FULL_FOOTER_LENGTH)).value.index
                == BlockHandle(|pre|, |data|)
    requires opt.crc(data + [t]) != sum
    ensures Opened(opt, pre + Stored(data, t, sum) + post, size, meta) == Err(Corruption)
  {
    ReadStored(opt, pre, data, t, sum, post);
    hide Layout.Of, DecodeFooter, ReadAt, ReadTableBlock, FilterLocation, ReadFilters, Sorted, Stored;
    OpenOutcome(opt, pre + Stored(data, t, sum) + post, size, meta);
  }

  /** `Table::read_filter_block`. */
  method ReadFilterBlock(metaBlock: Bytes, file: Bytes, ghost meta: Layout) returns (r: Option<FilterBlockReader>)
    requires meta.Of(metaBlock) && Sorted(meta.es) && FilterLocation(meta.es).Some?
    requires var l := FilterLocation(meta.es).value; l.Some? ==> l.value.size == 0 || l.value.size >= 5
    ensures r == ReadFilters(file, FilterLocation(meta.es).value)
  {
    hide Layout.Of, DecodeHandle, ReadAt, LowerBound, Sorted;
    var iter := new BlockIter(metaBlock, meta);
    iter.Seek(FILTER_KEY);
    var current := iter.Current();
    if current.Some? {
      var location := DecodeHandle(current.value.val).value.0;
      if location.size > 0 {
        return Some(NewReader(ReadAt(file, location.offset, location.size)));
      }
    }
    r := None;
  }

  /** `Table::new`, up to registering with the cache. */
  method ReadParts(opt: Options, file: Bytes, size: nat, ghost meta: Layout) returns (r: Result<Parts>)
    requires Openable(opt, file, size, meta)
    ensures r == Opened(opt, file, size, meta)
  {
    hide Layout.Of, DecodeFooter, ReadAt, ReadTableBlock, FilterLocation, ReadFilters, Sorted;
    var footer := DecodeFooter(ReadAt(file, size - FULL_FOOTER_LENGTH, FULL_FOOTER_LENGTH)).value;
    var index := ReadTableBlock(opt, file, footer.index);
    if index.Err? {
      return Err(index.code);
    }
    var metaIndex := ReadTableBlock(opt, file, footer.metaIndex);
    if metaIndex.Err? {
      return Err(metaIndex.code);
    }
    var filters := ReadFilterBlock(metaIndex.value, file, meta);
    r := Ok(Parts(footer, index.value, filters));
  }

  // ---------- lookups ----------

  /** No index is out of range and no assertion fails when the filters are asked about a block. */
  ghost predicate FiltersAnswer(v: View, filters: Option<FilterBlockReader>) {
    filters.Some? ==> forall i :: 0 <= i < |v.src.handles| ==> filters.value.Answers(v.src.handles[i].offset)
  }

  /** The block a lookup goes to: the first whose index key is at least `key`. */
  ghost function BlockFor(v: View, key: Bytes): (i: nat)
    ensures i <= |v.ix.es|
  {
    LowerBound(v.ix.es, key)
  }

  ghost function BlockLookup(r: Result<Bytes>, b: Option<Layout>, key: Bytes): Result<Option<Bytes>>
    requires ShowsBlock(r, b)
  {
    if b.Some? then Ok(Lookup(b.value.es, key)) else Err(r.code)
  }

  /** What `get` answers: nothing at or behind an index key, nothing a filter rules out. */
  ghost function GetSpec(v: View, filters: Option<FilterBlockReader>, key: Bytes): Result<Option<Bytes>>
    requires |v.src.handles| == |v.blocks| == |v.ix.es| && FiltersAnswer(v, filters)
    requires forall i :: 0 <= i < |v.blocks| ==> ShowsBlock(v.src.Direct(i), v.blocks[i])
  {
    hide ReadTableBlock, ShowsBlock, FilterBlockReader.Answers, LowerBound;
    var i := BlockFor(v, key);
    if i == |v.ix.es| || !Lt(key, v.ix.es[i].key) then Ok(None)
    else if filters.Some? && !filters.value.KeyMayMatch(v.src.handles[i].offset, key) then Ok(None)
    else BlockLookup(v.src.Direct(i), v.blocks[i], key)
  }

  /** A lookup reads block `i`: the key is below its index key, above all earlier ones, and not ruled out. */
  ghost predicate Reads(v: View, filters: Option<FilterBlockReader>, key: Bytes, i: nat)
    requires |v.src.handles| == |v.ix.es| && FiltersAnswer(v, filters)
  {
    && i < |v.ix.es|
    && (forall j :: 0 <= j < i ==> Lt(v.ix.es[j].key, key))
    && Lt(key, v.ix.es[i].key)
    && (filters.Some? ==> filters.value.KeyMayMatch(v.src.handles[i].offset, key))
  }

  /** `r` is what the block can give: the error of reading it, or the value stored in it under `key`. */
  ghost predicate FoundIn(direct: Result<Bytes>, b: Option<Layout>, key: Bytes, r: Result<Option<Bytes>>) {
    if b.None? then direct.Err? && r == Err(direct.code)
    else
      && r.Ok?
      && (r.value.Some? ==> Entry(key, r.value.value) in b.value.es)
      && (r.value.None? ==> forall e :: e in b.value.es ==> e.key != key)
  }

  /** All cases of a lookup: the block that is read decides, and if none is read there is no value. */
  ghost predicate Outcome(v: View, filters: Option<FilterBlockReader>, key: Bytes, r: Result<Option<Bytes>>)
    requires |v.src.handles| == |v.blocks| == |v.ix.es| && FiltersAnswer(v, filters)
  {
    && (forall i: nat :: Reads(v, filters, key, i) ==> FoundIn(v.src.Direct(i), v.blocks[i], key, r))
    && ((forall i: nat :: !Reads(v, filters, key, i)) ==> r == Ok(None))
  }

  lemma ReadsOnlyChosen(v: View, filters: Option<FilterBlockReader>, key: Bytes, i: nat)
    requires |v.src.handles| == |v.ix.es| && FiltersAnswer(v, filters) && Reads(v, filters, key, i)
    ensures i == BlockFor(v, key)
  {
    hide FilterBlockReader.Answers, LowerBound, FilterBlockReader.KeyMayMatch, Cmp;
    var k := BlockFor(v, key);
    TotalOrder(key, v.ix.es[i].key, key);
  }

  /** An error exactly when the block to read cannot be read, and then its error; else what is stored there. */
  lemma GetOutcome(v: View, filters: Option<FilterBlockReader>, key: Bytes)
    requires |v.src.handles| == |v.blocks| == |v.ix.es| && FiltersAnswer(v, filters)
    requires forall i :: 0 <= i < |v.blocks| ==> ShowsBlock(v.src.Direct(i), v.blocks[i])
    ensures Outcome(v, filters, key, GetSpec(v, filters, key))
    ensures GetSpec(v, filters, key).Err?
       <==> exists i: nat :: Reads(v, filters, key, i) && v.blocks[i] == None
  {
    hide FilterBlockReader.Answers, LowerBound, FilterBlockReader.KeyMayMatch, ReadTableBlock, Lookup, Cmp, Layout.Of;
    var r := GetSpec(v, filters, key);
    var k := BlockFor(v, key);
    forall i: nat | Reads(v, filters, key, i) ensures i == k {
      ReadsOnlyChosen(v, filters, key, i);
    }
    if k < |v.ix.es| {
      assert ShowsBlock(v.src.Direct(k), v.blocks[k]);
      FoundInChosen(v.src.Direct(k), v.blocks[k], key);
      assert GetSpec(v, filters, key) != Ok(None) ==> Reads(v, filters, key, k);
      hide FoundIn, ShowsBlock;
    }
  }

  lemma FoundInChosen(direct: Result<Bytes>, b: Option<Layout>, key: Bytes)
    requires ShowsBlock(direct, b)
    ensures FoundIn(direct, b, key, BlockLookup(direct, b, key))
    ensures BlockLookup(direct, b, key).Err? <==> b == None
  {
    if b.Some? {
      var found := Lookup(b.value.es, key);
      LookupMeaning(b.value.es, key, if found.Some? then found.value else []);
      hide Lookup, Layout.Of, Sorted;
    }
  }

  ghost function OffsetSpec(v: View, footer: Footer, key: Bytes): nat
    requires |v.src.handles| == |v.ix.es|
  {
    var i := BlockFor(v, key);
    if i < |v.ix.es| then v.src.handles[i].offset else footer.metaIndex.offset
  }

  // Searches the index block; `i` is the ordinal of the entry found.
  method FindBlock(indexBlock: Bytes, key: Bytes, ghost v: View) returns (r: Option<Entry>)
    requires Shows(v, indexBlock)
    ensures var i := BlockFor(v, key); r == if i < |v.ix.es| then Some(v.ix.es[i]) else None
  {
    hide Layout.Of, LowerBound, ReadTableBlock, DecodeHandle;
    var indexIter := new BlockIter(indexBlock, v.ix);
    indexIter.Seek(key);
    r := indexIter.Current();
  }

  // Searches a data block.
  method SearchBlock(block: Bytes, key: Bytes, ghost l: Layout) returns (r: Option<Bytes>)
    requires l.Of(block) && Sorted(l.es)
    ensures r == Lookup(l.es, key)
  {
    LookupAtLowerBound(l.es, key);
    hide Layout.Of, LowerBound, Lookup, Sorted;
    var iter := new BlockIter(block, l);
    iter.Seek(key);
    var current := iter.Current();
    if current.Some? {
      CmpEqual(current.value.key, key);
      if Cmp(current.value.key, key) == Equal {
        return Some(current.value.val);
      }
    }
    r := None;
  }

  // ---------- the table ----------

  datatype Table = Table(
    file: Bytes, cacheId: nat, opt: Options, parts: Parts, cache: Cache<Bytes>)
  {
    ghost predicate IsFor(v: View) {
      v.src.id == cacheId && v.src.opt == opt && v.src.file == file && Shows(v, parts.indexBlock)
    }

    /** The cache is in order, and what it holds of this table is what the file holds. */
    ghost predicate Valid(v: View)
      reads cache, cache.list, cache.list.head, cache.list.nodes
    {
      IsFor(v) && cache.Valid() && Agrees(cache.slots, v.src)
    }

    /** `read_block`. A block is stored only when its key is not in the cache. */
    method ReadBlock(location: BlockHandle, ghost v: View, ghost i: nat) returns (r: Result<Bytes>)
      requires Valid(v) && i < |v.src.handles| && location == v.src.handles[i]
      modifies cache.Repr()
      ensures Valid(v) && fresh(cache.Repr() - old(cache.Repr()))
      ensures r == v.src.Direct(i)
      ensures r.Ok? ==> |cache.slots| > 0 && cache.slots[0] == Slot(v.src.Key(i), r.value)
      ensures r.Err? ==> cache.slots == old(cache.slots)
      ensures (cache.slots, r) == ReadThrough(old(cache.slots), v.src.Key(i), v.src.Direct(i), cache.cap)
      ensures ReadsOnly(old(cache.slots), cache.slots, v.src) && cache.id == old(cache.id)
    {
      ReadIsDirect(cache.slots, v.src, i, cache.cap);
      ReadReadsOnly(cache.slots, v.src, i, cache.cap);
      var cacheKey := CacheKey(cacheId, location.offset);
      hide Shows, ReadTableBlock, CacheKey, Agrees, Find, MapAgrees, ReadsOnly;
      var block := cache.Get(cacheKey);
      if block.Some? {
        return Ok(block.value);
      }
      r := ReadTableBlock(opt, file, location);
      if r.Ok? {
        cache.Insert(cacheKey, r.value);
      }
    }

    // Last part of `Get`: reads a block and searches it.
    method LookInBlock(location: BlockHandle, key: Bytes, ghost v: View, ghost i: nat)
        returns (r: Result<Option<Bytes>>)
      requires Valid(v) && i < |v.src.handles| && location == v.src.handles[i]
      modifies cache.Repr()
      ensures Valid(v) && fresh(cache.Repr() - old(cache.Repr()))
      ensures ReadsOnly(old(cache.slots), cache.slots, v.src) && cache.id == old(cache.id)
      ensures ShowsBlock(v.src.Direct(i), v.blocks[i]) && r == BlockLookup(v.src.Direct(i), v.blocks[i], key)
    {
      assert ShowsBlock(v.src.Direct(i), v.blocks[i]);
      hide Shows, Layout.Of, ReadTableBlock, CacheKey, Agrees, Lookup, ReadThrough, ReadsOnly, Sorted;
      var tb := ReadBlock(location, v, i);
      if tb.Err? {
        return Err(tb.code);
      }
      var found := SearchBlock(tb.value, key, v.blocks[i].value);
      r := Ok(found);
    }

    // First part of `Get`: the block to read, if there is one.
    method ChooseBlock(key: Bytes, ghost v: View) returns (r: Option<BlockHandle>)
      requires IsFor(v) && FiltersAnswer(v, parts.filters)
      ensures var i := BlockFor(v, key);
              if r.None? then GetSpec(v, parts.filters, key) == Ok(None)
              else
                && i < |v.src.handles| && r == Some(v.src.handles[i])
                && GetSpec(v, parts.filters, key) == BlockLookup(v.src.Direct(i), v.blocks[i], key)
    {
      hide Layout.Of, ReadTableBlock, DecodeHandle, FilterBlockReader.Answers, LowerBound, Cmp, Sorted, BlockLookup;
      var entry := FindBlock(parts.indexBlock, key, v);
      ghost var i := BlockFor(v, key);
      if entry.None? || Cmp(key, entry.value.key) != Less {
        return None;
      }
      assert IndexEntryOk(v.ix.es[i], v.src.handles[i]);
      var handle := DecodeHandle(entry.value.val).value.0;

      if parts.filters.Some? {
        var may := ReaderKeyMayMatch(parts.filters.value, handle.offset, key);
        if !may {
          return None;
        }
      }
      r := Some(handle);
    }

    /** `get`; to the cache it can only add a block of this table. */
    method Get(key: Bytes, ghost v: View) returns (r: Result<Option<Bytes>>)
      requires Valid(v) && FiltersAnswer(v, parts.filters)
      modifies cache.Repr()
      ensures Valid(v) && fresh(cache.Repr() - old(cache.Repr()))
      ensures ReadsOnly(old(cache.slots), cache.slots, v.src) && cache.id == old(cache.id)
      ensures r == GetSpec(v, parts.filters, key) && Outcome(v, parts.filters, key, r)
    {
      NoReads(cache.slots, v.src);
      GetOutcome(v, parts.filters, key);
      hide ReadTableBlock, FilterBlockReader.Answers, BlockFor, BlockLookup, GetSpec, Outcome, Agrees, ReadsOnly,
           Layout.Of, Shows, Cache.Valid, FiltersAnswer, ShowsBlock;
      var block := ChooseBlock(key, v);
      if block.None? {
        return Ok(None);
      }
      r := LookInBlock(block.value, key, v, BlockFor(v, key));
    }

    /** `approx_offset_of`: where the block of `key` begins, or where the data area ends. */
    method ApproxOffsetOf(key: Bytes, ghost v: View) returns (off: nat)
      requires IsFor(v)
      ensures off == OffsetSpec(v, parts.footer, key)
    {
      hide Layout.Of, ReadTableBlock, DecodeHandle, LowerBound;
      var entry := FindBlock(parts.indexBlock, key, v);
      if entry.Some? {
        assert IndexEntryOk(v.ix.es[BlockFor(v, key)], v.src.handles[BlockFor(v, key)]);
        return DecodeHandle(entry.value.val).value.0.offset;
      }
      off := parts.footer.metaIndex.offset;
    }
  }

  /** `Table::new`: registers with the shared cache under a new id. */
  method OpenTable(opt: Options, file: Bytes, size: nat, cache: Cache<Bytes>, ghost meta: Layout)
      returns (r: Result<Table>)
    requires Openable(opt, file, size, meta) && cache.Valid()
    modifies cache`id
    ensures cache.Valid() && cache.slots == old(cache.slots)
    ensures match Opened(opt, file, size, meta)
            case Err(code) => r == Err(code) && cache.id == old(cache.id)
            case Ok(parts) => r == Ok(Table(file, cache.id, opt, parts, cache)) && cache.id == old(cache.id) + 1
  {
    hide Openable, Opened;
    var parts := ReadParts(opt, file, size, meta);
    if parts.Err? {
      return Err(parts.code);
    }
    var cacheId := cache.NewCacheId();
    r := Ok(Table(file, cacheId, opt, parts.value, cache));
  }
}

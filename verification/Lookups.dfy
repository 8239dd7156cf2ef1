/**
 Consequences for clients of a table: when `get` is the map lookup, what it can miss, whole sessions
 of build, open and lookups, and offsets of keys.
 */
module Lookups {
  import opened Bytes
  import opened Codec
  import opened BlockFormat
  import opened FilterBlock
  import opened TableFormat
  import opened Build
  import opened TableImage
  import opened Separation
  import opened Caching
  import opened BlockCaching
  import opened TableReading
  import opened TableBuilding
  import opened EndToEnd

  // ---------- which keys get can miss ----------

  /** No key of the list is another one followed by a zero byte. */
  ghost predicate NoZeroExtension(es: seq<Entry>) {
    forall i :: 0 <= i < |es| ==> Lookup(es, es[i].key + [0]) == None
  }

  lemma BoundaryExtends(opt: Options, es: seq<Entry>, key: Bytes)
    requires opt.Valid() && Sorted(es) && NonEmptyKeys(es) && Boundary(Closed(opt, es).blocks, key)
    ensures Lookup(es, key).Some? && exists i :: 0 <= i < |es| && key == es[i].key + [0]
  {
    var bs := Closed(opt, es).blocks;
    hide Closed, Lookup;
    ClosedIsSeparated(opt, es);
    var i :| 0 <= i < |bs| - 1 && BoundaryAt(bs, i, key);
    var last, first := bs[i][|bs[i]| - 1], bs[i + 1][0];
    assert last in bs[i] && first in bs[i + 1];
    InFlatten(bs, last);
    InFlatten(bs, first);
    LookupMeaning(es, key, first.val);
  }

  /** For lists without such a pair of keys, `get` is the map lookup for every key. */
  lemma GetIsLookup(opt: Options, es: seq<Entry>, key: Bytes)
    requires Buildable(opt, es) && NoZeroExtension(es)
    ensures GetAnswer(opt, es, key) == Lookup(es, key)
  {
    hide Closed, Lookup;
    if Boundary(Closed(opt, es).blocks, key) {
      BoundaryExtends(opt, es, key);
    }
  }

  /** `get` answers `Some(v)` exactly for the pairs added, boundary keys aside. */
  lemma GetFindsExactlyThePairs(opt: Options, es: seq<Entry>, key: Bytes, v: Bytes)
    requires Buildable(opt, es)
    ensures GetAnswer(opt, es, key) == Some(v)
       <==> Entry(key, v) in es && !Boundary(Closed(opt, es).blocks, key)
  {
    hide Closed, Lookup, Fits;
    LookupMeaning(es, key, v);
  }

  const A: Bytes := [97]
  const A0: Bytes := [97, 0]

  /** Two keys, the second the first followed by a zero byte. */
  function TwoKeys(v: Bytes, w: Bytes): seq<Entry> {
    [Entry(A, v), Entry(A0, w)]
  }

  // One entry whose value is as long as a block already fills the block.
  lemma FirstFillsBlock(opt: Options, v: Bytes)
    requires opt.Valid() && |v| >= opt.blockSize
    ensures |Contents(opt, [Entry(A, v)])| > opt.blockSize
  {
    var b := [Entry(A, v)];
    assert b[..0] == [];
    DataSnoc([], Entry(A, v), opt.restartInterval);
    assert [] + [Entry(A, v)] == b;
  }

  lemma TwoBlocks(opt: Options, v: Bytes, w: Bytes)
    requires opt.Valid() && |v| >= opt.blockSize
    ensures Closed(opt, TwoKeys(v, w)).blocks == [[Entry(A, v)], [Entry(A0, w)]]
  {
    hide Contents, Frame, Packed, FilterKeys.StartBlock, FilterKeys.AddKey;
    var es := TwoKeys(v, w);
    assert es[..1] == [Entry(A, v)] && es[..1][..0] == [];
    assert AddAll(opt, []) == START;
    EmptyBlockSize(opt);
    var st1 := AddAll(opt, es[..1]);
    assert st1.pending == [Entry(A, v)] && st1.blocks == [];
    FirstFillsBlock(opt, v);
    var st2 := AddAll(opt, es);
    assert st2 == Add(opt, st1, Entry(A0, w));
    assert st2.blocks == [[Entry(A, v)]] && st2.pending == [Entry(A0, w)];
  }

  /** With any options there is a table of two pairs of which `get` finds only the first. */
  lemma GetMissesAKey(opt: Options, v: Bytes, w: Bytes)
    requires |v| >= opt.blockSize && Buildable(opt, TwoKeys(v, w))
    ensures Lookup(TwoKeys(v, w), A0) == Some(w)
    ensures GetAnswer(opt, TwoKeys(v, w), A0) == None
  {
    hide Closed, Fits;
    var es := TwoKeys(v, w);
    TwoBlocks(opt, v, w);
    assert BoundaryAt(Closed(opt, es).blocks, 0, A0);
    assert es[1] == Entry(A0, w);
    LookupMeaning(es, A0, w);
  }

  // ---------- a whole session ----------

  /** A table built from `es` and opened under an id, as the cache sees it. */
  ghost function SourceOf(opt: Options, es: seq<Entry>, id: nat): Source
    requires Buildable(opt, es)
  {
    ViewOf(opt, es, id).src
  }

  /** `table` was opened on the bytes of a build from `es`. */
  ghost predicate Belongs(table: Table, es: seq<Entry>) {
    && Buildable(table.opt, es) && table.cacheId < U64 && table.parts == PartsOf(table.opt, es)
    && table.IsFor(ViewOf(table.opt, es, table.cacheId))
  }

  /** ... and the cache is in order and true to it. */
  ghost predicate OpenOn(table: Table, es: seq<Entry>)
    reads table.cache, table.cache.list, table.cache.list.head, table.cache.list.nodes
  {
    && Belongs(table, es) && table.cache.Valid()
    && Agrees(table.cache.slots, SourceOf(table.opt, es, table.cacheId))
  }

  /** Opens the bytes of a build with a cache of any history that other tables may be using. */
  method OpenBuilt(opt: Options, file: Bytes, ghost es: seq<Entry>, cache: Cache<Bytes>) returns (table: Table)
    requires Buildable(opt, es) && file == TableBytes(opt, es)
    requires cache.Valid() && IdsUpTo(cache.slots, cache.id) && cache.id + 1 < U64
    modifies cache`id
    ensures OpenOn(table, es) && table.opt == opt && table.cache == cache
    ensures table.cacheId == cache.id == old(cache.id) + 1
    ensures cache.slots == old(cache.slots) && IdsUpTo(cache.slots, cache.id)
  {
    BuiltOpens(opt, es);
    hide Buildable, TableBytes, Openable, Opened, ViewOf, PartsOf, MetaOf, Agrees, MapAgrees, IdsUpTo, Shows,
         Belongs;
    var result := OpenTable(opt, file, |file|, cache, MetaOf(opt, es));
    table := result.value;
    OpenedBelongs(table, es);
    IdsGrow(cache.slots, old(cache.id), cache.id);
    NewIdAgrees(cache.slots, old(cache.id), SourceOf(opt, es, table.cacheId));
  }

  lemma OpenedBelongs(table: Table, es: seq<Entry>)
    requires Buildable(table.opt, es) && table.cacheId < U64
    requires table.file == TableBytes(table.opt, es) && table.parts == PartsOf(table.opt, es)
    ensures Belongs(table, es) && SourceOf(table.opt, es, table.cacheId).WellFormed()
    ensures SourceOf(table.opt, es, table.cacheId).id == table.cacheId
  {
    hide TableBytes, Fits, ViewOf, PartsOf, Shows, Sorted, NonEmptyKeys, Options.Valid;
    BuiltGet(table.opt, es, table.cacheId, []);
    ViewParts(table.opt, es, table.cacheId);
    SourceOk(table.opt, es, table.cacheId);
  }

  /** `get` on a built table, whatever the shared cache has been used for in between. */
  method GetOne(table: Table, key: Bytes, ghost es: seq<Entry>) returns (r: Result<Option<Bytes>>)
    requires OpenOn(table, es)
    modifies table.cache.Repr()
    ensures OpenOn(table, es)
    ensures forall o :: o in table.cache.Repr() ==> o in old(table.cache.Repr()) || fresh(o)
    ensures ReadsOnly(old(table.cache.slots), table.cache.slots, SourceOf(table.opt, es, table.cacheId))
    ensures table.cache.id == old(table.cache.id)
    ensures r == Ok(GetAnswer(table.opt, es, key))
  {
    assert table.opt.blockSize >= 8;
    BuiltGet(table.opt, es, table.cacheId, key);
    hide Buildable, Table.IsFor, ViewOf, PartsOf, ReadsOnly, Agrees, Shows, FiltersAnswer, GetSpec, Cache.Valid,
         GetAnswer;
    r := table.Get(key, ViewOf(table.opt, es, table.cacheId));
  }

  /** The answer for every key of a list. */
  ghost function Answers(opt: Options, es: seq<Entry>, keys: seq<Bytes>): seq<Result<Option<Bytes>>>
    requires opt.Valid()
  {
    if keys == [] then []
    else Answers(opt, es, keys[..|keys| - 1]) + [Ok(GetAnswer(opt, es, keys[|keys| - 1]))]
  }

  lemma AnswersSnoc(opt: Options, es: seq<Entry>, keys: seq<Bytes>, i: nat)
    requires opt.Valid() && i < |keys|
    ensures Answers(opt, es, keys[..i + 1]) == Answers(opt, es, keys[..i]) + [Ok(GetAnswer(opt, es, keys[i]))]
  {
    hide GetAnswer, Options.Valid;
    assert keys[..i + 1][..i] == keys[..i];
  }

  lemma NoAnswers(opt: Options, es: seq<Entry>, keys: seq<Bytes>)
    requires opt.Valid()
    ensures Answers(opt, es, keys[..0]) == []
  {
  }

  /** Looks up keys in an open table, one after another. */
  method GetAll(table: Table, keys: seq<Bytes>, ghost es: seq<Entry>)
      returns (answers: seq<Result<Option<Bytes>>>)
    requires OpenOn(table, es)
    modifies table.cache.Repr()
    ensures OpenOn(table, es)
    ensures answers == Answers(table.opt, es, keys)
  {
    hide GetAnswer, Options.Valid, Table.IsFor, PartsOf, SourceOf, Agrees, Answers, ReadsOnly, Fits, Sorted,
         NonEmptyKeys, ViewOf;
    NoAnswers(table.opt, es, keys);
    assert keys[..|keys|] == keys;
    answers := [];
    for i := 0 to |keys|
      invariant OpenOn(table, es)
      invariant forall o :: o in table.cache.Repr() ==> o in old(table.cache.Repr()) || fresh(o)
      invariant answers == Answers(table.opt, es, keys[..i])
    {
      var r := GetOne(table, keys[i], es);
      AnswersSnoc(table.opt, es, keys, i);
      answers := answers + [r];
    }
  }

  /** Builds a table, opens the bytes with a fresh cache, and looks up keys. */
  method Session(opt: Options, es: seq<Entry>, capacity: nat, keys: seq<Bytes>)
      returns (answers: seq<Result<Option<Bytes>>>)
    requires Buildable(opt, es) && capacity > 0
    ensures answers == Answers(opt, es, keys)
  {
    var file, _ := BuildTable(opt, es);
    hide Buildable, TableBytes, Answers, OpenOn;
    var cache := new Cache<Bytes>(capacity);
    var table := OpenBuilt(opt, file, es, cache);
    answers := GetAll(table, keys, es);
  }

  // ---------- offsets of keys ----------

  lemma LowerBoundMonotone(es: seq<Entry>, k1: Bytes, k2: Bytes)
    requires Le(k1, k2)
    ensures LowerBound(es, k1) <= LowerBound(es, k2)
  {
    var i := LowerBound(es, k2);
    if i < |es| {
      TotalOrder(es[i].key, k2, k1);
      TotalOrder(es[i].key, k1, k2);
    }
  }

  // Where block `i` begins, or the end of the data area.
  function OffsetAt(opt: Options, st: Built, i: nat): nat
    requires opt.policy.Valid()
  {
    if i < |st.handles| then st.handles[i].offset else |WithFilter(opt, st)|
  }

  /** What `approx_offset_of` answers on a built table. */
  function OffsetOfKey(opt: Options, es: seq<Entry>, key: Bytes): nat
    requires opt.blockSize >= 8 && opt.policy.Valid()
  {
    OffsetAt(opt, Closed(opt, es), LowerBound(IndexOf(opt, es), key))
  }

  lemma BuiltOffset(opt: Options, es: seq<Entry>, id: nat, key: Bytes)
    requires Buildable(opt, es)
    ensures var v := ViewOf(opt, es, id);
            && |v.src.handles| == |v.ix.es|
            && OffsetSpec(v, PartsOf(opt, es).footer, key) == OffsetOfKey(opt, es, key)
  {
    assert opt.blockSize >= 8;
    hide Closed, LowerBound, ViewOf, Buildable, IndexOf, LayoutOf, WithFilter, WithMeta, MetaEntries, Contents;
    SameLengths(opt, es);
    IndexHasLength(opt, es);
    ViewIndex(opt, es, id);
    ViewParts(opt, es, id);
  }

  /** For a key above every index key it is where the filter block ends and the metaindex begins. */
  lemma OffsetBehindAll(opt: Options, es: seq<Entry>, key: Bytes)
    requires Buildable(opt, es)
    requires forall i :: 0 <= i < |Closed(opt, es).seps| ==> Lt(Closed(opt, es).seps[i], key)
    ensures var h := FilterHandle(opt, Closed(opt, es));
            && OffsetOfKey(opt, es, key) == EndOf(h) == PartsOf(opt, es).footer.metaIndex.offset
            && h.offset == DataEnd(Closed(opt, es))
  {
    ValidOptions(opt);
    SameLengths(opt, es);
    SectionsTile(opt, es);
    hide Closed, Buildable, FilterHandle, FooterOf, NewReader, FilterData, Contents, BlockHandle.Encode, Options.Valid,
         DataEnd, Cmp, WithFilter, MetaEntries;
  }

  /** `approx_offset_of` on an open table. */
  method OffsetIn(table: Table, key: Bytes, ghost es: seq<Entry>) returns (off: nat)
    requires Belongs(table, es)
    ensures off == OffsetOfKey(table.opt, es, key)
  {
    BuiltOffset(table.opt, es, table.cacheId, key);
    hide Buildable, ViewOf, PartsOf, Table.IsFor, OffsetSpec, OffsetOfKey;
    off := table.ApproxOffsetOf(key, ViewOf(table.opt, es, table.cacheId));
  }

  // Block offsets increase with the ordinal and stay below the end of the data area.
  lemma OffsetsRise(opt: Options, st: Built, i: nat, j: nat)
    requires opt.policy.Valid() && Tiled(opt, st) && i <= j
    ensures OffsetAt(opt, st, i) <= OffsetAt(opt, st, j)
  {
    hide Tiled, Frame, FilterData;
    if i < |st.handles| {
      OffsetsWithinFile(opt, st, i);
      if i < j < |st.handles| {
        OffsetsIncrease(opt, st, i, j);
      }
    }
  }

  /** The offset never decreases with the key. */
  lemma OffsetsMonotone(opt: Options, es: seq<Entry>, k1: Bytes, k2: Bytes)
    requires Buildable(opt, es) && Le(k1, k2)
    ensures OffsetOfKey(opt, es, k1) <= OffsetOfKey(opt, es, k2)
  {
    ValidOptions(opt);
    hide Closed, LowerBound, Buildable, IndexOf, Cmp, Tiled, OffsetAt, Options.Valid;
    TiledAll(opt, es);
    LowerBoundMonotone(IndexOf(opt, es), k1, k2);
    OffsetsRise(opt, Closed(opt, es), LowerBound(IndexOf(opt, es), k1), LowerBound(IndexOf(opt, es), k2));
  }

  /**
   A key in block `j` gets that block's offset exactly when it is not a boundary key; a boundary key
   gets the offset of the block before.
   */
  lemma OffsetOfPresentKey(opt: Options, es: seq<Entry>, j: nat, m: nat)
    requires Buildable(opt, es)
    requires j < |Closed(opt, es).blocks| && m < |Closed(opt, es).blocks[j]|
    ensures |Closed(opt, es).handles| == |Closed(opt, es).blocks|
    ensures var st := Closed(opt, es);
            var key := st.blocks[j][m].key;
            && (OffsetOfKey(opt, es, key) == st.handles[j].offset <==> !Boundary(st.blocks, key))
            && (Boundary(st.blocks, key) ==>
                  j > 0 && OffsetOfKey(opt, es, key) == st.handles[j - 1].offset < st.handles[j].offset)
  {
    var st := Closed(opt, es);
    var key := st.blocks[j][m].key;
    assert opt.blockSize >= 8;
    hide Closed, LowerBound, Cmp, Fits, Options.Valid, SeparatedBy, BlockHandle.Encode, WithFilter, Boundary, Tiled;
    SameLengths(opt, es);
    ClosedIsSeparated(opt, es);
    BlockForIsChosen(st.seps, st.handles, st.blocks, key);
    BoundaryIsBeforeItsBlock(st.blocks, st.seps, key, LowerBound(IndexOf(opt, es), key), j, m);
    TiledAll(opt, es);
    if j > 0 {
      OffsetsIncrease(opt, st, j - 1, j);
    }
  }

  /** `approx_offset_of` answers the offset of block `i`. */
  ghost predicate PlacedIn(opt: Options, es: seq<Entry>, key: Bytes, i: nat)
    requires opt.blockSize >= 8 && opt.policy.Valid()
  {
    var handles := Closed(opt, es).handles;
    i < |handles| && OffsetOfKey(opt, es, key) == handles[i].offset
  }

  /** In the table of two pairs, each in its own block, the second key gets the offset of the first block. */
  lemma OffsetMissesAKey(opt: Options, v: Bytes, w: Bytes)
    requires |v| >= opt.blockSize && Buildable(opt, TwoKeys(v, w))
    ensures Closed(opt, TwoKeys(v, w)).blocks == [[Entry(A, v)], [Entry(A0, w)]]
    ensures PlacedIn(opt, TwoKeys(v, w), A0, 0) && !PlacedIn(opt, TwoKeys(v, w), A0, 1)
  {
    hide Closed, Fits, OffsetOfKey;
    TwoBlocks(opt, v, w);
    assert BoundaryAt(Closed(opt, TwoKeys(v, w)).blocks, 0, A0);
    OffsetOfPresentKey(opt, TwoKeys(v, w), 1, 0);
  }
}

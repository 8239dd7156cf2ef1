/**
 Iterating over tables that were built: what a traversal and a seek give, in terms of the pairs added.
 */
module Scans {
  import opened Bytes
  import opened Build
  import opened Codec
  import opened BlockFormat
  import opened Seqs
  import opened Cursors
  import opened TableFormat
  import opened Separation
  import opened Caching
  import opened TableReading
  import opened TableBuilding
  import opened TableImage
  import opened BlockCaching
  import opened EndToEnd
  import opened TableCursors
  import opened TableSeeking
  import opened TableIteration
  import opened BlockIteration
  import opened Lookups

  /** Every block of a built table is readable and has an entry; together they hold the pairs added. */
  lemma BuiltBlocks(opt: Options, es: seq<Entry>, id: nat)
    requires Buildable(opt, es)
    ensures BlocksOf(ViewOf(opt, es, id)) == Whole(Closed(opt, es).blocks)
    ensures AllReadable(BlocksOf(ViewOf(opt, es, id))) && NoEmptyBlock(BlocksOf(ViewOf(opt, es, id)))
    ensures All(BlocksOf(ViewOf(opt, es, id))) == es
  {
    hide Closed, Fits, LayoutOf, ViewOf, Flatten, All, Readable;
    var st := Closed(opt, es);
    var v := ViewOf(opt, es, id);
    ViewParts(opt, es, id);
    ClosedIsSeparated(opt, es);
    ReadableWhole(st.blocks);
    forall i | 0 <= i < |st.blocks| ensures BlocksOf(v)[i] == Some(st.blocks[i]) {
      LayoutHolds(st.blocks[i], opt.restartInterval);
    }
    assert BlocksOf(v) == Whole(st.blocks);
  }

  lemma IndexHasSeps(opt: Options, es: seq<Entry>)
    requires opt.blockSize >= 8
    ensures IndexHas(IndexOf(opt, es), Closed(opt, es).seps)
  {
    hide Closed, BlockHandle.Encode;
    SameLengths(opt, es);
  }

  /** Whatever the iterator did before, a seek on a built table lands on the lower bound outside gaps only. */
  lemma BuiltSeekLands(opt: Options, es: seq<Entry>, c: TCursor, to: Bytes)
    requires Buildable(opt, es) && c.Fits(Whole(Closed(opt, es).blocks))
    ensures |IndexOf(opt, es)| == |Closed(opt, es).blocks| == |Closed(opt, es).seps|
    ensures var st := Closed(opt, es);
            && (StandsAt(st.blocks, c.Seek(Whole(st.blocks), IndexOf(opt, es), to), LowerBound(es, to))
                <==> !InGap(st.blocks, st.seps, to))
            && (InGap(st.blocks, st.seps, to) ==> !c.Seek(Whole(st.blocks), IndexOf(opt, es), to).Valid())
  {
    assert opt.blockSize >= 8;
    var st := Closed(opt, es);
    ClosedIsSeparated(opt, es);
    IndexHasSeps(opt, es);
    assert |IndexOf(opt, es)| == |st.seps| == |st.blocks|;
    hide *;
    SeekLandsOutsideGaps(st.blocks, st.seps, IndexOf(opt, es), c, to);
    if InGap(st.blocks, st.seps, to) {
      SeekIntoGap(st.blocks, st.seps, IndexOf(opt, es), c, to);
    }
  }

  lemma LowerBoundOfKey(es: seq<Entry>, p: nat)
    requires Sorted(es) && p < |es|
    ensures LowerBound(es, es[p].key) == p
  {
    TotalOrder(es[p].key, es[p].key, es[p].key);
    LowerBoundUnique(es, es[p].key, p);
  }

  /** A seek finds the key of every pair added, boundary keys aside. */
  lemma SeekFindsKey(opt: Options, es: seq<Entry>, c: TCursor, p: nat)
    requires Buildable(opt, es) && c.Fits(Whole(Closed(opt, es).blocks)) && p < |es|
    ensures |IndexOf(opt, es)| == |Closed(opt, es).blocks|
    ensures var st := Closed(opt, es);
            (StandsAt(st.blocks, c.Seek(Whole(st.blocks), IndexOf(opt, es), es[p].key), p)
             <==> !Boundary(st.blocks, es[p].key))
  {
    var st := Closed(opt, es);
    BuiltSeekLands(opt, es, c, es[p].key);
    LowerBoundOfKey(es, p);
    ClosedIsSeparated(opt, es);
    hide Closed, Flatten, StandsAt, InGap, SeparatedBy, Boundary, TCursor.Fits, TCursor.Seek, Fits;
    InFlatten(st.blocks, es[p]);
    var j :| 0 <= j < |st.blocks| && es[p] in st.blocks[j];
    var m :| 0 <= m < |st.blocks[j]| && st.blocks[j][m] == es[p];
    GapOfPresentKey(st.blocks, st.seps, j, m);
  }

  /** With any options there is a table of two pairs in which no seek finds the second. */
  lemma SeekMissesAKey(opt: Options, c: TCursor, v: Bytes, w: Bytes)
    requires |v| >= opt.blockSize && Buildable(opt, TwoKeys(v, w))
    requires c.Fits(Whole(Closed(opt, TwoKeys(v, w)).blocks))
    ensures |IndexOf(opt, TwoKeys(v, w))| == |Closed(opt, TwoKeys(v, w)).blocks|
    ensures var bs := Closed(opt, TwoKeys(v, w)).blocks;
            !StandsAt(bs, c.Seek(Whole(bs), IndexOf(opt, TwoKeys(v, w)), A0), 1)
  {
    hide Closed, Fits, StandsAt, TCursor.Fits, TCursor.Seek;
    TwoBlocks(opt, v, w);
    assert BoundaryAt(Closed(opt, TwoKeys(v, w)).blocks, 0, A0);
    SeekFindsKey(opt, TwoKeys(v, w), c, 1);
  }

  /** In every table with a pair, going forward and back once makes the first block come twice. */
  lemma BuiltForwardAndBack(opt: Options, es: seq<Entry>)
    requires Buildable(opt, es) && es != []
    ensures Closed(opt, es).blocks != []
    ensures var bs := Closed(opt, es).blocks;
            var c := START_OF_TABLE.Advance(Whole(bs));
            && c.OnEntry(Whole(bs)) && NoEmptyBlock(Whole(bs))
            && Traverse(Whole(bs), c.Prev(Whole(bs))).0 == bs[0] + es != es
  {
    BuiltBlocks(opt, es, 0);
    ClosedIsSeparated(opt, es);
    var bs := Closed(opt, es).blocks;
    assert Flatten([]) == [];
    hide Closed, Buildable, Flatten, SeparatedBy, All, Traverse, TCursor.Advance, TCursor.Prev, ViewOf, BlocksOf,
         NoEmptyBlock, AllReadable;
    ForwardAndBackRepeats(Whole(bs));
  }

  /** A new iterator over an open table yields the pairs the table was built from. */
  method Scan(table: Table, ghost es: seq<Entry>) returns (out: seq<Entry>)
    requires OpenOn(table, es)
    modifies table.cache.Repr()
    ensures OpenOn(table, es)
    ensures forall o :: o in table.cache.Repr() ==> o in old(table.cache.Repr()) || fresh(o)
    ensures ReadsOnly(old(table.cache.slots), table.cache.slots, SourceOf(table.opt, es, table.cacheId))
    ensures table.cache.id == old(table.cache.id)
    ensures out == es
  {
    ghost var v := ViewOf(table.opt, es, table.cacheId);
    hide Buildable, Table.IsFor, ViewOf, PartsOf, ReadsOnly, Agrees, Shows, Cache.Valid, BlocksOf, NoEmptyBlock,
         All, AllReadable, TableIterator.Valid;
    var iter := new TableIterator(table, v);
    BuiltBlocks(table.opt, es, table.cacheId);
    StartHasAllAhead(BlocksOf(v));
    out := iter.TraverseAll();
    StaysOpen(iter, es);
  }

  lemma StaysOpen(iter: TableIterator, es: seq<Entry>)
    requires iter.Valid() && Belongs(iter.table, es)
    requires iter.v == ViewOf(iter.table.opt, es, iter.table.cacheId)
    ensures OpenOn(iter.table, es)
  {
    hide Belongs, ViewOf, Agrees, Cache.Valid;
  }

  lemma StartHasAllAhead(bs: Blocks)
    ensures START_OF_TABLE.Fits(bs) && START_OF_TABLE.Ahead(bs) == All(bs)
  {
    hide All;
    TraverseFromStart(bs, START_OF_TABLE);
    TraverseYieldsAhead(bs, START_OF_TABLE);
  }

  /** A file written by the builder, opened and traversed, gives back the pairs that went into it. */
  method RoundTrip(opt: Options, es: seq<Entry>, capacity: nat) returns (out: seq<Entry>)
    requires Buildable(opt, es) && capacity > 0
    ensures out == es
  {
    var file, _ := BuildTable(opt, es);
    hide Buildable, TableBytes, OpenOn;
    var cache := new Cache<Bytes>(capacity);
    var table := OpenBuilt(opt, file, es, cache);
    out := Scan(table, es);
  }

  lemma AheadOfOrdinal(bs: Blocks, c: TCursor, p: nat)
    requires c.OnEntry(bs) && c.Ordinal(bs) == p
    ensures p < |All(bs)| && c.Current(bs).Some? && [c.Current(bs).value] + c.Ahead(bs) == All(bs)[p..]
  {
    hide All;
    OrdinalIsPosition(bs, c);
    Uncons(All(bs), p);
  }

  /** The pair the iterator stands on and what follows. */
  function FromHere(bs: Blocks, c: TCursor): seq<Entry>
    requires c.Fits(bs)
  {
    if c.Valid() then [c.Current(bs).value] + c.Ahead(bs) else []
  }

  /** Seeks with an iterator and collects what it then yields. */
  method SeekAndCollect(iter: TableIterator, to: Bytes) returns (out: seq<Entry>)
    requires iter.Valid()
    modifies iter.Own(), iter.table.cache.Repr()
    ensures iter.Valid() && |iter.v.ix.es| == |iter.v.blocks|
    ensures forall o :: o in iter.table.cache.Repr() ==> o in old(iter.table.cache.Repr()) || fresh(o)
    ensures ReadsOnly(old(iter.table.cache.slots), iter.table.cache.slots, iter.v.src)
    ensures iter.table.cache.id == old(iter.table.cache.id)
    ensures out == FromHere(BlocksOf(iter.v), old(iter.Pos()).Seek(BlocksOf(iter.v), iter.v.ix.es, to))
  {
    hide Table.Valid, Layout.Of, BlockIter.Valid, TableIterator.Valid, TCursor.Seek, TCursor.Ahead, BlocksOf,
         ReadsOnly;
    ghost var slots := iter.table.cache.slots;
    iter.Seek(to);
    if !iter.IsValid() {
      return [];
    }
    ghost var sought := iter.table.cache.slots;
    var first := iter.Current();
    var rest := iter.TraverseAll();
    ReadsCompose(slots, sought, iter.table.cache.slots, iter.v.src);
    out := [first.value] + rest;
  }

  lemma LandedYields(blocks: seq<seq<Entry>>, c: TCursor, q: nat)
    requires c.Fits(Whole(blocks)) && StandsAt(blocks, c, q) && q <= |Flatten(blocks)|
    ensures FromHere(Whole(blocks), c) == Flatten(blocks)[q..]
  {
    hide Flatten, All, TCursor.Ahead;
    ReadableWhole(blocks);
    if c.Valid() {
      AheadOfOrdinal(Whole(blocks), c, q);
    }
  }

  lemma FromLowerBound(opt: Options, es: seq<Entry>, id: nat, to: Bytes)
    requires Buildable(opt, es)
    ensures |Closed(opt, es).seps| == |Closed(opt, es).blocks|
    ensures var v, st := ViewOf(opt, es, id), Closed(opt, es);
            && |v.ix.es| == |v.blocks|
            && FromHere(BlocksOf(v), START_OF_TABLE.Seek(BlocksOf(v), v.ix.es, to))
               == if InGap(st.blocks, st.seps, to) then [] else es[LowerBound(es, to)..]
  {
    assert opt.blockSize >= 8;
    assert Sorted(es) && NonEmptyKeys(es) && opt.Valid();
    hide Closed, Buildable, ViewOf, InGap, TCursor.Seek, TCursor.Current, TCursor.Ahead, TCursor.Fits, StandsAt,
         Flatten, All, LowerBound, Sorted, NonEmptyKeys, Options.Valid, IndexOf, Readable, Whole;
    ghost var v, st := ViewOf(opt, es, id), Closed(opt, es);
    StartFits(Whole(st.blocks));
    BuiltBlocks(opt, es, id);
    BuiltSeekLands(opt, es, START_OF_TABLE, to);
    ClosedIsSeparated(opt, es);
    ViewIndex(opt, es, id);
    var c := START_OF_TABLE.Seek(Whole(st.blocks), IndexOf(opt, es), to);
    if InGap(st.blocks, st.seps, to) {
      assert FromHere(Whole(st.blocks), c) == [];
    } else {
      LandedYields(st.blocks, c, LowerBound(es, to));
    }
  }

  lemma StartFits(bs: Blocks)
    ensures START_OF_TABLE.Fits(bs)
  {
  }

  /** Seeks in an open table and collects the pair it stands on and what follows. */
  method ScanFrom(table: Table, to: Bytes, ghost es: seq<Entry>) returns (out: seq<Entry>)
    requires OpenOn(table, es)
    modifies table.cache.Repr()
    ensures OpenOn(table, es)
    ensures forall o :: o in table.cache.Repr() ==> o in old(table.cache.Repr()) || fresh(o)
    ensures ReadsOnly(old(table.cache.slots), table.cache.slots, SourceOf(table.opt, es, table.cacheId))
    ensures table.cache.id == old(table.cache.id)
    ensures |Closed(table.opt, es).seps| == |Closed(table.opt, es).blocks|
    ensures out == if InGap(Closed(table.opt, es).blocks, Closed(table.opt, es).seps, to) then []
                   else es[LowerBound(es, to)..]
  {
    ghost var v := ViewOf(table.opt, es, table.cacheId);
    FromLowerBound(table.opt, es, table.cacheId, to);
    hide Buildable, Table.IsFor, ViewOf, PartsOf, ReadsOnly, Agrees, Shows, Cache.Valid, BlocksOf, Closed, InGap,
         FromHere, TableIterator.Valid, LowerBound, TCursor.Seek;
    var iter := new TableIterator(table, v);
    out := SeekAndCollect(iter, to);
    StaysOpen(iter, es);
  }
}

/**
 What a table builder has produced after a list of additions, and the invariants of that state.

 `Add` and `Flush` say which entries end up in which block, under which separator, at which place
 in the file and in which filter. The class in `TableBuilding` refines them.
 */
module Build {
  import opened Bytes
  import opened Codec
  import opened Comparator
  import opened BlockFormat
  import opened FilterBlock
  import opened TableFormat
  import opened Seqs

  datatype Built = Built(
    blocks: seq<seq<Entry>>,        // data blocks written
    seps: seq<Bytes>,               // the index key of each
    handles: seq<BlockHandle>,      // where each was written
    pending: seq<Entry>,            // the data block being filled
    filt: FilterKeys,
    file: Bytes)                    // what the sink has received

  const START := Built([], [], [], [], FilterKeys([], []), [])

  function LastKey(b: seq<Entry>): Bytes
    requires b != []
  {
    b[|b| - 1].key
  }

  function FirstKey(b: seq<Entry>): Bytes
    requires b != []
  {
    b[0].key
  }

  function Contents(opt: Options, b: seq<Entry>): Bytes {
    BlockBytes(b, opt.restartInterval)
  }

  /** `write_data_block`; `nextKey` is the first key of the next block. */
  function Flush(opt: Options, st: Built, nextKey: Bytes): Built
    requires st.pending != []
  {
    var contents := Contents(opt, st.pending);
    var file := st.file + Frame(opt, contents, opt.compression);
    Built(
      st.blocks + [st.pending],
      st.seps + [ShortestSep(LastKey(st.pending), nextKey)],
      st.handles + [BlockHandle(|st.file|, |Packed(opt, contents, opt.compression)|)],
      [],
      st.filt.StartBlock(|file|),
      file)
  }

  predicate MustFlush(opt: Options, st: Built) {
    |Contents(opt, st.pending)| > opt.blockSize
  }

  lemma EmptyBlockIsSmall(opt: Options, st: Built)
    requires opt.Valid() && MustFlush(opt, st)
    ensures st.pending != []
  {
  }

  /** `add`. */
  function Add(opt: Options, st: Built, e: Entry): Built
    requires opt.blockSize >= 8
  {
    var st1 := if MustFlush(opt, st) then Flush(opt, st, e.key) else st;
    st1.(pending := st1.pending + [e], filt := st1.filt.AddKey(e.key))
  }

  function AddAll(opt: Options, es: seq<Entry>): Built
    requires opt.blockSize >= 8
  {
    if es == [] then START
    else Add(opt, AddAll(opt, es[..|es| - 1]), es[|es| - 1])
  }

  /** What `finish` does first: it writes the last data block. */
  function Close(opt: Options, st: Built): Built {
    if st.pending == [] then st else Flush(opt, st, ShortSucc(LastKey(st.pending)))
  }

  function Closed(opt: Options, es: seq<Entry>): Built
    requires opt.blockSize >= 8
  {
    Close(opt, AddAll(opt, es))
  }

  // ---------- invariants ----------

  function Flatten(bs: seq<seq<Entry>>): seq<Entry> {
    if bs == [] then [] else Flatten(bs[..|bs| - 1]) + bs[|bs| - 1]
  }

  /** The blocks, the unfinished one included. */
  function AllBlocks(st: Built): seq<seq<Entry>> {
    if st.pending == [] then st.blocks else st.blocks + [st.pending]
  }

  ghost predicate BlocksOk(bs: seq<seq<Entry>>) {
    && (forall i :: 0 <= i < |bs| ==> bs[i] != [] && Sorted(bs[i]) && NonEmptyKeys(bs[i]))
    && (forall i :: 0 <= i < |bs| - 1 ==> Rising(bs, i))
  }

  // Block `i` ends below the beginning of the next.
  ghost predicate Rising(bs: seq<seq<Entry>>, i: nat)
    requires i < |bs| - 1
  {
    bs[i] != [] && bs[i + 1] != [] && Lt(LastKey(bs[i]), FirstKey(bs[i + 1]))
  }

  /**
   The index key of block `i` is above every key of that block and at most the first key of the
   next; it equals that key exactly when the key is the last one followed by a zero byte.
   */
  ghost predicate SepOk(bs: seq<seq<Entry>>, i: nat, sep: Bytes)
    requires i < |bs| && BlocksOk(bs)
  {
    && Lt(LastKey(bs[i]), sep)
    && (i + 1 < |bs| ==>
          && Le(sep, FirstKey(bs[i + 1]))
          && (sep == FirstKey(bs[i + 1]) <==> FirstKey(bs[i + 1]) == LastKey(bs[i]) + [0]))
  }

  ghost predicate Ordered(st: Built) {
    && BlocksOk(AllBlocks(st))
    && |st.seps| == |st.blocks|
    && (forall i :: 0 <= i < |st.seps| ==> SepOk(AllBlocks(st), i, st.seps[i]))
  }

  /** The sink's bytes from `off` on are `s`. */
  predicate FoundAt(f: Bytes, off: nat, s: Bytes) {
    off + |s| <= |f| && f[off..off + |s|] == s
  }

  // Block `i` is in the file at its handle.
  ghost predicate Placed(opt: Options, st: Built, i: nat)
    requires i < |st.blocks| && i < |st.handles|
  {
    var contents := Contents(opt, st.blocks[i]);
    && st.handles[i].size == |Packed(opt, contents, opt.compression)|
    && FoundAt(st.file, st.handles[i].offset, Frame(opt, contents, opt.compression))
  }

  function EndOf(h: BlockHandle): nat {
    h.offset + h.size + 5
  }

  /** Block extents tile the file without gap or overlap, and each holds its block's frame. */
  ghost predicate Tiled(opt: Options, st: Built) {
    && |st.handles| == |st.blocks|
    && (forall i :: 0 <= i < |st.handles| ==> Placed(opt, st, i))
    && (forall i :: 0 <= i < |st.handles| - 1 ==> EndOf(st.handles[i]) == st.handles[i + 1].offset)
    && (if st.handles == [] then st.file == []
        else st.handles[0].offset == 0 && EndOf(st.handles[|st.handles| - 1]) == |st.file|)
  }

  /** Keys of the filter with index `ix`, finished or not. */
  function FilterGroup(fk: FilterKeys, ix: nat): seq<Bytes> {
    if ix < |fk.groups| then fk.groups[ix] else if ix == |fk.groups| then fk.waiting else []
  }

  /** The keys of every block are in the filter its file offset selects. */
  ghost predicate Filtered(st: Built) {
    && |st.filt.groups| == |st.file| / 2048
    && |st.handles| == |st.blocks|
    && (forall i :: 0 <= i < |st.blocks| ==>
          AllKeysIn(st.blocks[i], FilterGroup(st.filt, st.handles[i].offset / 2048)))
    && AllKeysIn(st.pending, st.filt.waiting)
    && (forall k :: k in st.filt.waiting ==> k != [])
  }

  ghost predicate AllKeysIn(b: seq<Entry>, g: seq<Bytes>) {
    forall j :: 0 <= j < |b| ==> b[j].key in g
  }

  /** Every block but the one being filled went past the block size, by its last entry only. */
  ghost predicate Sized(opt: Options, st: Built) {
    && (forall i :: 0 <= i < |st.blocks| ==> WithinBound(opt, st.blocks[i]))
    && (st.pending != [] ==> WithinBound(opt, st.pending))
  }

  ghost predicate WithinBound(opt: Options, b: seq<Entry>) {
    b != [] && |Contents(opt, b[..|b| - 1])| <= opt.blockSize
  }

  // ---------- order ----------

  lemma {:induction false} FlattenSnoc(bs: seq<seq<Entry>>, b: seq<Entry>)
    ensures Flatten(bs + [b]) == Flatten(bs) + b
  {
    assert (bs + [b])[..|bs|] == bs;
  }

  predicate EndsWith(b: seq<Entry>, e: Entry) {
    b != [] && b[|b| - 1] == e
  }

  lemma AddFlattens(opt: Options, st: Built, e: Entry)
    requires opt.Valid()
    ensures Flatten(AllBlocks(Add(opt, st, e))) == Flatten(AllBlocks(st)) + [e]
    ensures EndsWith(Add(opt, st, e).pending, e)
  {
    hide Frame, Packed;
    if MustFlush(opt, st) {
      EmptyBlockIsSmall(opt, st);
      FlattenSnoc(st.blocks, st.pending);
      FlattenSnoc(st.blocks + [st.pending], [e]);
    } else {
      FlattenSnoc(st.blocks, st.pending + [e]);
      FlattenSnoc(st.blocks, st.pending);
      assert Flatten(st.blocks) + (st.pending + [e]) == Flatten(st.blocks) + st.pending + [e];
    }
  }

  /** No entry is lost, duplicated or reordered. */
  lemma {:induction false} NothingLost(opt: Options, es: seq<Entry>)
    requires opt.Valid()
    ensures Flatten(AllBlocks(AddAll(opt, es))) == es
    ensures if es == [] then AddAll(opt, es) == START else EndsWith(AddAll(opt, es).pending, es[|es| - 1])
    decreases |es|
  {
    hide Add;
    if es != [] {
      var n := |es| - 1;
      NothingLost(opt, es[..n]);
      AddFlattens(opt, AddAll(opt, es[..n]), es[n]);
      assert es == es[..n] + [es[n]];
    }
  }

  // What `SepOk` says depends on block `i` and the first key of the next one only.
  lemma SepOkTransfers(bs: seq<seq<Entry>>, bs': seq<seq<Entry>>, i: nat, sep: Bytes)
    requires BlocksOk(bs) && BlocksOk(bs') && i < |bs| && i < |bs'|
    requires SepOk(bs, i, sep) && bs'[i] == bs[i]
    requires i + 1 < |bs'| ==> i + 1 < |bs| && FirstKey(bs'[i + 1]) == FirstKey(bs[i + 1])
    ensures SepOk(bs', i, sep)
  {
  }

  lemma BlocksOkGrow(bs: seq<seq<Entry>>, e: Entry)
    requires bs != [] && BlocksOk(bs) && e.key != [] && Lt(LastKey(bs[|bs| - 1]), e.key)
    ensures BlocksOk(bs[..|bs| - 1] + [bs[|bs| - 1] + [e]])
  {
    var n := |bs| - 1;
    var bs' := bs[..n] + [bs[n] + [e]];
    SortedSnoc(bs[n], e);
    forall i | 0 <= i < |bs'| - 1 ensures Rising(bs', i) {
      assert Rising(bs, i);
    }
  }

  lemma BlocksOkPush(bs: seq<seq<Entry>>, e: Entry)
    requires BlocksOk(bs) && e.key != [] && (bs != [] ==> Lt(LastKey(bs[|bs| - 1]), e.key))
    ensures BlocksOk(bs + [[e]])
  {
    var bs' := bs + [[e]];
    forall i | 0 <= i < |bs'| - 1 ensures Rising(bs', i) {
      if i < |bs| - 1 {
        assert Rising(bs, i);
      }
    }
  }

  // Entries can follow: the key is non-empty and above everything so far.
  predicate CanFollow(st: Built, e: Entry) {
    && e.key != []
    && (if st.pending == [] then st.blocks == [] else Lt(LastKey(st.pending), e.key))
  }

  lemma OrderedAdd(opt: Options, st: Built, e: Entry)
    requires opt.Valid() && Ordered(st) && CanFollow(st, e)
    ensures Ordered(Add(opt, st, e))
  {
    hide Contents, Frame, Packed, BlocksOk, FilterKeys.StartBlock;
    var all, st' := AllBlocks(st), Add(opt, st, e);
    var all' := AllBlocks(st');
    if MustFlush(opt, st) {
      EmptyBlockIsSmall(opt, st);
      BlocksOkPush(all, e);
      assert st'.pending == [e];
      assert all' == all + [[e]];
      SeparatorLaw(LastKey(st.pending), e.key);
    } else if st.pending == [] {
      BlocksOkPush(all, e);
      assert st'.pending == [e];
      assert all' == [[e]];
    } else {
      BlocksOkGrow(all, e);
      assert all' == all[..|all| - 1] + [all[|all| - 1] + [e]];
    }
    forall i | 0 <= i < |st'.seps| ensures SepOk(all', i, st'.seps[i]) {
      if i < |st.seps| {
        NonEmptyBlocks(all);
        NonEmptyBlocks(all');
        SepOkTransfers(all, all', i, st.seps[i]);
      }
    }
  }

  lemma NonEmptyBlocks(bs: seq<seq<Entry>>)
    requires BlocksOk(bs)
    ensures forall i :: 0 <= i < |bs| ==> bs[i] != []
  {
  }

  lemma OrderedFlush(opt: Options, st: Built)
    requires Ordered(st) && st.pending != []
    ensures Ordered(Flush(opt, st, ShortSucc(LastKey(st.pending))))
  {
    hide Contents, Frame, Packed, BlocksOk, FilterKeys.StartBlock;
    var last := LastKey(st.pending);
    SuccessorLaw(last);
    SeparatorLaw(last, ShortSucc(last));
  }

  /** Separators are in order over every build, so the index builder's own order check holds. */
  lemma {:induction false} OrderedAll(opt: Options, es: seq<Entry>)
    requires opt.Valid() && Sorted(es) && NonEmptyKeys(es)
    ensures Ordered(AddAll(opt, es)) && Ordered(Closed(opt, es))
    decreases |es|
  {
    hide Add, Flush, Ordered;
    NothingLost(opt, es);
    if es == [] {
      OrderedStart();
    } else {
      var n := |es| - 1;
      OrderedAll(opt, es[..n]);
      NothingLost(opt, es[..n]);
      assert es[..n] != [] ==> es[..n][n - 1] == es[n - 1] && Lt(es[n - 1].key, es[n].key);
      OrderedAdd(opt, AddAll(opt, es[..n]), es[n]);
      OrderedFlush(opt, AddAll(opt, es));
    }
  }

  lemma OrderedStart()
    ensures Ordered(START)
  {
  }

  // ---------- places in the file ----------

  lemma FoundAtExtends(f: Bytes, off: nat, s: Bytes, more: Bytes)
    requires FoundAt(f, off, s)
    ensures FoundAt(f + more, off, s)
  {
    SliceOfMiddle([], f, more, off, off + |s|);
    assert [] + f + more == f + more;
  }

  lemma FoundAtEnd(f: Bytes, s: Bytes)
    ensures FoundAt(f + s, |f|, s)
  {
  }

  lemma TiledFlush(opt: Options, st: Built, nextKey: Bytes)
    requires Tiled(opt, st) && st.pending != []
    ensures Tiled(opt, Flush(opt, st, nextKey))
  {
    hide Contents, Frame, Packed, FilterKeys.StartBlock, ShortestSep;
    var st' := Flush(opt, st, nextKey);
    forall i | 0 <= i < |st'.handles| ensures Placed(opt, st', i) {
      if i < |st.handles| {
        assert Placed(opt, st, i);
        FoundAtExtends(st.file, st.handles[i].offset, Frame(opt, Contents(opt, st.blocks[i]), opt.compression),
                       Frame(opt, Contents(opt, st.pending), opt.compression));
      } else {
        FoundAtEnd(st.file, Frame(opt, Contents(opt, st.pending), opt.compression));
      }
    }
  }

  // Only the blocks written, their handles and the file matter for `Tiled`.
  lemma TiledTransfers(opt: Options, st: Built, st': Built)
    requires Tiled(opt, st)
    requires st'.blocks == st.blocks && st'.handles == st.handles && st'.file == st.file
    ensures Tiled(opt, st')
  {
    hide Contents, Frame, Packed, FoundAt;
    forall i | 0 <= i < |st'.handles| ensures Placed(opt, st', i) {
      assert Placed(opt, st, i);
    }
  }

  lemma {:induction false} TiledAll(opt: Options, es: seq<Entry>)
    requires opt.Valid()
    ensures Tiled(opt, AddAll(opt, es)) && Tiled(opt, Closed(opt, es))
    decreases |es|
  {
    hide Flush, Contents, Frame, Packed, FilterKeys.AddKey, Tiled;
    if es == [] {
      TiledStart(opt);
    } else {
      var n := |es| - 1;
      var st := AddAll(opt, es[..n]);
      TiledAll(opt, es[..n]);
      if MustFlush(opt, st) {
        EmptyBlockIsSmall(opt, st);
        TiledFlush(opt, st, es[n].key);
        TiledTransfers(opt, Flush(opt, st, es[n].key), AddAll(opt, es));
      } else {
        TiledTransfers(opt, st, AddAll(opt, es));
      }
    }
    var st := AddAll(opt, es);
    if st.pending != [] {
      TiledFlush(opt, st, ShortSucc(LastKey(st.pending)));
    }
  }

  lemma TiledStart(opt: Options)
    ensures Tiled(opt, START)
  {
  }

  lemma OffsetsWithinFile(opt: Options, st: Built, i: nat)
    requires Tiled(opt, st) && i < |st.handles|
    ensures st.handles[i].offset + st.handles[i].size + 5 <= |st.file|
  {
    hide Contents, Frame, Packed;
    assert Placed(opt, st, i);
  }

  /** Block offsets increase, so distinct blocks have distinct offsets. */
  lemma {:induction false} OffsetsIncrease(opt: Options, st: Built, i: nat, j: nat)
    requires Tiled(opt, st) && i < j < |st.handles|
    ensures st.handles[i].offset < st.handles[j].offset
    decreases j
  {
    if i < j - 1 {
      OffsetsIncrease(opt, st, i, j - 1);
    }
    assert EndOf(st.handles[j - 1]) == st.handles[j - 1 + 1].offset;
  }

  // ---------- filters ----------

  lemma {:induction false} FillToGroups(fk: FilterKeys, n: nat)
    ensures |fk.FillTo(n).groups| == if n <= |fk.groups| then |fk.groups| else n
    ensures forall ix: nat, k :: k in FilterGroup(fk, ix) ==> k in FilterGroup(fk.FillTo(n), ix)
    ensures forall k :: k in fk.FillTo(n).waiting ==> k in fk.waiting
    decreases n - |fk.groups|
  {
    if n > |fk.groups| {
      FillToGroups(fk.Generate(), n);
      assert forall ix: nat, k :: k in FilterGroup(fk, ix) ==> k in FilterGroup(fk.Generate(), ix);
    }
  }

  lemma AllKeysInTransfers(b: seq<Entry>, fk: FilterKeys, fk': FilterKeys, ix: nat)
    requires AllKeysIn(b, FilterGroup(fk, ix))
    requires forall k :: k in FilterGroup(fk, ix) ==> k in FilterGroup(fk', ix)
    ensures AllKeysIn(b, FilterGroup(fk', ix))
  {
  }

  lemma FilteredFlush(opt: Options, st: Built, nextKey: Bytes)
    requires Filtered(st) && st.pending != [] && |Flush(opt, st, nextKey).file| < U32
    ensures Filtered(Flush(opt, st, nextKey))
    ensures FilterIndex(|Flush(opt, st, nextKey).file|, FILTER_BASE_LOG2) >= |st.filt.groups|
  {
    var st' := Flush(opt, st, nextKey);
    FilterIndexOf(|st'.file|);
    hide Contents, Frame, Packed, ShortestSep, FilterGroup, FilterIndex, FilterKeys.FillTo;
    assert |st.file| <= |st'.file|;
    FillToGroups(st.filt, |st'.file| / 2048);
    forall i | 0 <= i < |st'.blocks|
      ensures AllKeysIn(st'.blocks[i], FilterGroup(st'.filt, st'.handles[i].offset / 2048))
    {
      if i == |st.blocks| {
        WaitingGroup(st.filt);
      }
      AllKeysInTransfers(st'.blocks[i], st.filt, st'.filt, st'.handles[i].offset / 2048);
    }
  }

  lemma WaitingGroup(fk: FilterKeys)
    ensures FilterGroup(fk, |fk.groups|) == fk.waiting
  {
  }

  lemma FilteredPut(st: Built, e: Entry)
    requires Filtered(st) && e.key != []
    ensures Filtered(st.(pending := st.pending + [e], filt := st.filt.AddKey(e.key)))
  {
    var st' := st.(pending := st.pending + [e], filt := st.filt.AddKey(e.key));
    forall i | 0 <= i < |st.blocks|
      ensures AllKeysIn(st'.blocks[i], FilterGroup(st'.filt, st'.handles[i].offset / 2048))
    {
      AllKeysInTransfers(st.blocks[i], st.filt, st'.filt, st.handles[i].offset / 2048);
    }
  }

  lemma FileGrows(opt: Options, st: Built, e: Entry)
    requires opt.Valid()
    ensures |st.file| <= |Add(opt, st, e).file|
  {
    hide Contents, Frame, Packed;
  }

  /**
   Over a whole build every key of every block is in the filter selected by the block's offset,
   and the number of finished filters is the filter index of the file's end.
   */
  lemma {:induction false} FilteredAll(opt: Options, es: seq<Entry>)
    requires opt.Valid() && NonEmptyKeys(es)
    ensures |AddAll(opt, es).file| < U32 ==> Filtered(AddAll(opt, es))
    ensures |Closed(opt, es).file| < U32 ==> Filtered(AddAll(opt, es)) && Filtered(Closed(opt, es))
    decreases |es|
  {
    hide Contents, Frame, Packed, FilterKeys.AddKey, Filtered, Flush;
    var st := AddAll(opt, es);
    if es == [] {
      FilteredStart();
    } else {
      var n := |es| - 1;
      var was := AddAll(opt, es[..n]);
      FilteredAll(opt, es[..n]);
      FileGrows(opt, was, es[n]);
      if |st.file| < U32 {
        if MustFlush(opt, was) {
          EmptyBlockIsSmall(opt, was);
          FilteredFlush(opt, was, es[n].key);
          FilteredPut(Flush(opt, was, es[n].key), es[n]);
        } else {
          FilteredPut(was, es[n]);
        }
      }
    }
    if st.pending != [] && |Closed(opt, es).file| < U32 {
      FlushGrows(opt, st);
      FilteredFlush(opt, st, ShortSucc(LastKey(st.pending)));
    }
  }

  lemma FlushGrows(opt: Options, st: Built)
    requires st.pending != []
    ensures |st.file| < |Flush(opt, st, ShortSucc(LastKey(st.pending))).file|
  {
  }

  lemma FilteredStart()
    ensures Filtered(START)
  {
  }

  // ---------- block sizes ----------

  /**
   Every data block but the last is larger than the block size; without its last entry, every
   data block is not.
   */
  lemma {:induction false} SizedAll(opt: Options, es: seq<Entry>)
    requires opt.Valid()
    ensures Sized(opt, AddAll(opt, es))
    ensures Oversized(opt, AddAll(opt, es))
    decreases |es|
  {
    hide Add, BlockBytes, Sized;
    if es == [] {
      SizedStart(opt);
    } else {
      var n := |es| - 1;
      SizedAll(opt, es[..n]);
      SizedAdd(opt, AddAll(opt, es[..n]), es[n]);
    }
  }

  lemma SizedStart(opt: Options)
    ensures Sized(opt, START)
  {
  }

  ghost predicate Oversized(opt: Options, st: Built) {
    forall i :: 0 <= i < |st.blocks| ==> |Contents(opt, st.blocks[i])| > opt.blockSize
  }

  lemma SizedAdd(opt: Options, st: Built, e: Entry)
    requires opt.Valid() && Sized(opt, st) && Oversized(opt, st)
    ensures Sized(opt, Add(opt, st, e)) && Oversized(opt, Add(opt, st, e))
  {
    EmptyBlockSize(opt);
    if MustFlush(opt, st) {
      EmptyBlockIsSmall(opt, st);
    }
    hide Contents, Frame, Packed, FilterKeys.StartBlock, FilterKeys.AddKey, ShortestSep;
    var st' := Add(opt, st, e);
    assert st'.pending[..|st'.pending| - 1] == if MustFlush(opt, st) then [] else st.pending;
  }

  lemma EmptyBlockSize(opt: Options)
    ensures |Contents(opt, [])| == 8
  {
  }

  lemma WithinBoundMeans(opt: Options, b: seq<Entry>)
    requires opt.Valid() && WithinBound(opt, b)
    ensures var n := |b| - 1;
            |Contents(opt, b)| <= opt.blockSize + 4 + |EntryBytes(Shared(b, n, opt.restartInterval), b[n])|
  {
    hide EntryBytes, Shared;
    var n := |b| - 1;
    assert b[..n] + [b[n]] == b;
    DataSnoc(b[..n], b[n], opt.restartInterval);
  }

  lemma ClosedHasNoPending(opt: Options, es: seq<Entry>)
    requires opt.blockSize >= 8
    ensures Closed(opt, es).pending == [] && Closed(opt, es).blocks == AllBlocks(AddAll(opt, es))
  {
    hide AddAll, Contents, Frame, Packed, FilterKeys.StartBlock;
  }

  /** Sizes of the blocks of a finished table. */
  lemma BlockSizes(opt: Options, es: seq<Entry>, i: nat)
    requires opt.Valid() && i < |Closed(opt, es).blocks|
    ensures Closed(opt, es).blocks[i] != []
    ensures var bs := Closed(opt, es).blocks; var n := |bs[i]| - 1;
            && (i < |bs| - 1 ==> |Contents(opt, bs[i])| > opt.blockSize)
            && |Contents(opt, bs[i])|
               <= opt.blockSize + 4 + |EntryBytes(Shared(bs[i], n, opt.restartInterval), bs[i][n])|
  {
    SizedAll(opt, es);
    ClosedHasNoPending(opt, es);
    hide Closed, AddAll, Contents, EntryBytes, Shared;
    WithinBoundMeans(opt, Closed(opt, es).blocks[i]);
  }
}

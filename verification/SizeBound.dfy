/**
 How large a table can get, from the pairs alone: the size limits of a build in terms a caller can
 check before it starts.
 */
module SizeBounds {
  import opened Bytes
  import opened Codec
  import opened Comparator
  import opened BlockFormat
  import opened Bloom
  import opened FilterBlock
  import opened TableFormat
  import opened Build
  import opened TableImage
  import opened EndToEnd
  import opened Lookups
  import opened TableCursors
  import opened TableSeeking
  import opened Scans

  function EntryWeight(e: Entry): nat {
    2 * (|e.key| + |e.val|) + 30
  }

  function Weight(es: seq<Entry>): nat {
    if es == [] then 0 else Weight(es[..|es| - 1]) + EntryWeight(es[|es| - 1])
  }

  lemma WeightSnoc(es: seq<Entry>, e: Entry)
    ensures Weight(es + [e]) == Weight(es) + EntryWeight(e)
  {
    assert (es + [e])[..|es|] == es;
  }

  /** What the filters cost for `n` keys. */
  function FilterCost(p: BloomPolicy, n: nat): nat {
    n * (p.bitsPerKey + 10)
  }

  /** A table of these pairs stays below 4 GB, whatever the block size. */
  predicate WithinBudget(opt: Options, es: seq<Entry>) {
    5 * Weight(es) + FilterCost(opt.policy, |es|) + 400 < U32
  }

  // ---------- blocks ----------

  lemma {:induction false} VarSmall(n: nat)
    ensures |EncodeVar(n)| <= n / 64 + 2
    decreases n
  {
    if n >= 128 {
      VarSmall(n / 128);
    }
  }

  lemma EntrySmall(shared: nat, e: Entry)
    requires shared <= |e.key|
    ensures |EntryBytes(shared, e)| + 24 <= EntryWeight(e)
  {
    VarSmall(shared);
    VarSmall(|e.key| - shared);
    VarSmall(|e.val|);
    hide EncodeVar;
  }

  lemma {:induction false} BlockSmall(es: seq<Entry>, r: nat)
    ensures |BlockBytes(es, r)| + 20 * |es| <= Weight(es) + 8
    decreases |es|
  {
    if es != [] {
      var n := |es| - 1;
      BlockSmall(es[..n], r);
      EntrySmall(Shared(es, n, r), es[n]);
      hide EntryBytes, Shared, EntryWeight, StartsRestart;
    }
  }

  // ---------- data blocks ----------

  function Total(lens: seq<Bytes>): nat {
    if lens == [] then 0 else Total(lens[..|lens| - 1]) + |lens[|lens| - 1]|
  }

  lemma TotalSnoc(ks: seq<Bytes>, k: Bytes)
    ensures Total(ks + [k]) == Total(ks) + |k|
  {
    assert (ks + [k])[..|ks|] == ks;
  }

  lemma {:induction false} SepFromShort(a: Bytes, b: Bytes, d: nat)
    requires d <= |a| && d <= |b|
    ensures |SepFrom(a, b, d)| <= |a| + 1
    decreases |a| - d
  {
    if d < Min(|a|, |b|) {
      SepFromShort(a, b, d + 1);
    }
  }

  // What has been written, and what goes into the index, is paid for by the pairs added so far.
  ghost predicate Paid(st: Built, total: nat) {
    && |st.file| + Weight(st.pending) <= total
    && 2 * Total(st.seps) + 70 * |st.seps| + 3 * Weight(st.pending) <= 3 * total
  }

  lemma LastWeighs(b: seq<Entry>)
    requires b != []
    ensures Weight(b) >= 2 * |LastKey(b)| + 30
  {
  }

  lemma PaidFlush(opt: Options, st: Built, nextKey: Bytes, total: nat)
    requires opt.compression.NoCompression? && st.pending != [] && Paid(st, total)
    ensures Paid(Flush(opt, st, nextKey), total)
  {
    var last := LastKey(st.pending);
    BlockSmall(st.pending, opt.restartInterval);
    LastWeighs(st.pending);
    SepFromShort(last, nextKey, Lcp(last, nextKey));
    TotalSnoc(st.seps, ShortestSep(last, nextKey));
    hide BlockBytes, Lcp, SepFrom, FilterKeys.StartBlock, Total, LastKey;
    assert Weight([]) == 0;
    hide Weight;
  }

  lemma PaidPut(st: Built, e: Entry, total: nat)
    requires Paid(st, total)
    ensures Paid(st.(pending := st.pending + [e], filt := st.filt.AddKey(e.key)), total + EntryWeight(e))
  {
    WeightSnoc(st.pending, e);
  }

  lemma PaidStart()
    ensures Paid(START, 0)
  {
  }

  lemma PaidAdd(opt: Options, st: Built, e: Entry, total: nat)
    requires opt.Valid() && opt.compression.NoCompression? && Paid(st, total)
    ensures Paid(Add(opt, st, e), total + EntryWeight(e))
  {
    hide Flush, BlockBytes, Paid, EntryWeight, FilterKeys.AddKey;
    if MustFlush(opt, st) {
      EmptyBlockIsSmall(opt, st);
      PaidFlush(opt, st, e.key, total);
      PaidPut(Flush(opt, st, e.key), e, total);
    } else {
      PaidPut(st, e, total);
    }
  }

  lemma PaidClose(opt: Options, st: Built, total: nat)
    requires opt.compression.NoCompression? && Paid(st, total)
    ensures Paid(Close(opt, st), total)
  {
    hide Flush, BlockBytes, Paid, ShortSucc;
    if st.pending != [] {
      PaidFlush(opt, st, ShortSucc(LastKey(st.pending)), total);
    }
  }

  lemma {:induction false} PaidAll(opt: Options, es: seq<Entry>)
    requires opt.Valid() && opt.compression.NoCompression?
    ensures Paid(AddAll(opt, es), Weight(es)) && Paid(Closed(opt, es), Weight(es))
    decreases |es|
  {
    hide Paid, Add, Close, EntryWeight;
    if es == [] {
      PaidStart();
    } else {
      var n := |es| - 1;
      PaidAll(opt, es[..n]);
      PaidAdd(opt, AddAll(opt, es[..n]), es[n], Weight(es[..n]));
    }
    PaidClose(opt, AddAll(opt, es), Weight(es));
  }

  // ---------- filters ----------

  function Count(groups: seq<seq<Bytes>>): nat {
    if groups == [] then 0 else Count(groups[..|groups| - 1]) + |groups[|groups| - 1]|
  }

  lemma CountSnoc(groups: seq<seq<Bytes>>, g: seq<Bytes>)
    ensures Count(groups + [g]) == Count(groups) + |g|
  {
    assert (groups + [g])[..|groups|] == groups;
  }

  lemma {:induction false} FillToKeepsCount(fk: FilterKeys, n: nat)
    ensures Count(fk.FillTo(n).groups) + |fk.FillTo(n).waiting| == Count(fk.groups) + |fk.waiting|
    decreases n - |fk.groups|
  {
    if n > |fk.groups| {
      CountSnoc(fk.groups, fk.waiting);
      FillToKeepsCount(fk.Generate(), n);
    }
  }

  /** Every key added is in exactly one filter, finished or waiting. */
  lemma {:induction false} KeysAreConserved(opt: Options, es: seq<Entry>)
    requires opt.Valid()
    ensures var fk := AddAll(opt, es).filt; Count(fk.groups) + |fk.waiting| == |es|
    ensures var fk := Closed(opt, es).filt; Count(fk.groups) + |fk.waiting| == |es|
    decreases |es|
  {
    hide BlockBytes, FilterIndex;
    if es != [] {
      var n := |es| - 1;
      KeysAreConserved(opt, es[..n]);
      var st := AddAll(opt, es[..n]);
      if MustFlush(opt, st) {
        EmptyBlockIsSmall(opt, st);
        FlushKeepsCount(opt, st, es[n].key);
      }
      hide Flush, Count;
      var st1 := AddAll(opt, es);
      assert st1 == Add(opt, st, es[n]);
      if st1.pending != [] {
        FlushKeepsCount(opt, st1, ShortSucc(LastKey(st1.pending)));
      }
    }
  }

  lemma FlushKeepsCount(opt: Options, st: Built, nextKey: Bytes)
    requires st.pending != []
    ensures var fk := Flush(opt, st, nextKey).filt;
            Count(fk.groups) + |fk.waiting| == Count(st.filt.groups) + |st.filt.waiting|
  {
    hide BlockBytes, FilterIndex, Count;
    FillToKeepsCount(st.filt, FilterIndex(|Flush(opt, st, nextKey).file|, FILTER_BASE_LOG2));
  }

  lemma {:induction false} GroupAtMostCount(groups: seq<seq<Bytes>>, i: nat)
    requires i < |groups|
    ensures |groups[i]| <= Count(groups)
    decreases |groups|
  {
    var n := |groups| - 1;
    if i < n {
      GroupAtMostCount(groups[..n], i);
    }
  }

  lemma FilterSmall(p: BloomPolicy, g: seq<Bytes>)
    requires p.Valid()
    ensures |FilterBytes(p, g)| <= FilterCost(p, |g|)
  {
    if g != [] {
      assert |g| * (p.bitsPerKey + 10) == |g| * p.bitsPerKey + 10 * |g|;
    }
  }

  lemma LastFilter(p: BloomPolicy, groups: seq<seq<Bytes>>)
    requires p.Valid() && groups != []
    ensures var n := |groups| - 1;
            && |FiltersData(p, groups)| == |FiltersData(p, groups[..n])| + |FilterBytes(p, groups[n])|
            && Count(groups) == Count(groups[..n]) + |groups[n]|
  {
    hide FilterBytes;
  }

  lemma NoFilters(p: BloomPolicy)
    requires p.Valid()
    ensures FiltersData(p, []) == [] && FilterCost(p, Count([])) == 0
  {
  }

  lemma {:induction false} FiltersSmall(p: BloomPolicy, groups: seq<seq<Bytes>>)
    requires p.Valid()
    ensures |FiltersData(p, groups)| <= FilterCost(p, Count(groups))
    decreases |groups|
  {
    hide FilterBytes, FiltersData, Count, FilterCost, BloomPolicy.Valid;
    if groups == [] {
      NoFilters(p);
    } else {
      var n := |groups| - 1;
      LastFilter(p, groups);
      FiltersSmall(p, groups[..n]);
      FilterSmall(p, groups[n]);
      CostAdds(p, Count(groups[..n]), |groups[n]|);
    }
  }

  lemma CostAdds(p: BloomPolicy, a: nat, b: nat)
    ensures FilterCost(p, a + b) == FilterCost(p, a) + FilterCost(p, b)
  {
  }

  lemma FewKeysAddressable(p: BloomPolicy, n: nat)
    requires FilterCost(p, n) + 100 < U32
    ensures p.Addressable(n)
  {
    assert n * (p.bitsPerKey + 10) == n * p.bitsPerKey + 10 * n;
  }

  lemma FinishedSmall(p: BloomPolicy, fk: FilterKeys, n: nat)
    requires p.Valid() && Count(fk.groups) + |fk.waiting| == n
    ensures |FilterBlockBytes(p, fk.Finished())| <= FilterCost(p, n) + 4 * |fk.groups| + 9
  {
    hide FiltersData, Count, FixedWords, FilterCost, FilterBlockBytes;
    CountSnoc(fk.groups, fk.waiting);
    assert Count(fk.Finished()) == n;
    FiltersSmall(p, fk.Finished());
  }

  lemma FilterDataSmall(opt: Options, es: seq<Entry>)
    requires opt.Valid() && NonEmptyKeys(es) && |Closed(opt, es).file| < U32
    ensures var st := Closed(opt, es);
            opt.policy.Valid() && |FilterData(opt, st)| <= FilterCost(opt.policy, |es|) + |st.file| + 9
  {
    ValidOptions(opt);
    hide Closed, AddAll, Count, NonEmptyKeys, FilterBlockBytes, FilterCost, Options.Valid;
    KeysAreConserved(opt, es);
    FilteredAll(opt, es);
    FinishedSmall(opt.policy, Closed(opt, es).filt, |es|);
  }

  lemma GroupsAddressable(p: BloomPolicy, fk: FilterKeys, n: nat)
    requires Count(fk.groups) + |fk.waiting| == n && p.Addressable(n)
    ensures fk.Addressable(p)
  {
    hide Count, BloomPolicy.Addressable;
    FewerKeysAddressable(p, |fk.waiting|, n);
    forall i | 0 <= i < |fk.groups| ensures p.Addressable(|fk.groups[i]|) {
      GroupAtMostCount(fk.groups, i);
      FewerKeysAddressable(p, |fk.groups[i]|, n);
    }
  }

  lemma FiltersAddressable(opt: Options, es: seq<Entry>)
    requires opt.Valid() && WithinBudget(opt, es)
    ensures Closed(opt, es).filt.Addressable(opt.policy)
  {
    ValidOptions(opt);
    hide Closed, AddAll, Count, FilterKeys.Addressable, Weight, FilterCost, Options.Valid, BloomPolicy.Addressable;
    KeysAreConserved(opt, es);
    FewKeysAddressable(opt.policy, |es|);
    GroupsAddressable(opt.policy, Closed(opt, es).filt, |es|);
  }

  // ---------- index, metaindex, footer ----------

  lemma HandleShort(h: BlockHandle)
    requires h.offset < U64 && h.size < U64
    ensures |h.Encode()| <= 20
  {
    HandleRoundTrip(h, []);
  }

  lemma {:induction false} IndexWeighs(seps: seq<Bytes>, handles: seq<BlockHandle>)
    requires |seps| == |handles|
    requires forall i :: 0 <= i < |handles| ==> handles[i].offset < U64 && handles[i].size < U64
    ensures Weight(IndexEntries(seps, handles)) <= 2 * Total(seps) + 70 * |seps|
    decreases |seps|
  {
    hide BlockHandle.Encode;
    var index := IndexEntries(seps, handles);
    if seps != [] {
      var n := |seps| - 1;
      assert index[..n] == IndexEntries(seps[..n], handles[..n]);
      IndexWeighs(seps[..n], handles[..n]);
      HandleShort(handles[n]);
    }
  }

  lemma MetaSmall(opt: Options, st: Built)
    requires opt.policy.Valid() && |st.file| < U32 && |FilterData(opt, st)| < U32
    ensures |Contents(opt, MetaEntries(opt, st))| <= 180
  {
    hide FilterData, BlockHandle.Encode, BlockBytes;
    HandleShort(FilterHandle(opt, st));
    var meta := MetaEntries(opt, st);
    BlockSmall(meta, opt.restartInterval);
    assert meta[..0] == [] && Weight([]) == 0;
    assert Weight(meta) == EntryWeight(meta[0]);
  }

  lemma ClosedHandlesFit(opt: Options, es: seq<Entry>)
    requires opt.Valid() && |Closed(opt, es).file| < U32
    ensures var st := Closed(opt, es);
            forall i :: 0 <= i < |st.handles| ==> st.handles[i].offset < U32 && st.handles[i].size < U32
  {
    ValidOptions(opt);
    hide Closed, Tiled, Options.Valid;
    TiledAll(opt, es);
    forall i | 0 <= i < |Closed(opt, es).handles|
      ensures Closed(opt, es).handles[i].offset < U32 && Closed(opt, es).handles[i].size < U32
    {
      OffsetsWithinFile(opt, Closed(opt, es), i);
    }
  }

  lemma IndexSmall(opt: Options, es: seq<Entry>)
    requires opt.Valid() && opt.compression.NoCompression? && Weight(es) < U32
    ensures var st := Closed(opt, es);
            |st.seps| == |st.handles| && |Contents(opt, IndexEntries(st.seps, st.handles))| <= 3 * Weight(es) + 8
  {
    ValidOptions(opt);
    hide Closed, AddAll, Options.Valid, Weight, Total, IndexEntries, BlockBytes;
    var st := Closed(opt, es);
    SameLengths(opt, es);
    PaidAll(opt, es);
    ClosedHandlesFit(opt, es);
    IndexWeighs(st.seps, st.handles);
    BlockSmall(IndexEntries(st.seps, st.handles), opt.restartInterval);
  }

  // The parts of an uncompressed file, one behind the other.
  lemma ImageLength(opt: Options, st: Built)
    requires opt.policy.Valid() && opt.compression.NoCompression? && |st.seps| == |st.handles|
    requires FooterOf(opt, st).Wide64()
    ensures |Image(opt, st)| == |st.file| + |FilterData(opt, st)| + |Contents(opt, MetaEntries(opt, st))|
                                + |Contents(opt, IndexEntries(st.seps, st.handles))| + 63
  {
    FooterRoundTrip(FooterOf(opt, st));
    hide FilterData, Contents, MetaEntries, IndexEntries, Frame, FooterOf, Footer.Encode;
  }

  /** Whether a table can be built is decided by the lengths of the pairs. */
  lemma WithinBudgetIsBuildable(opt: Options, es: seq<Entry>)
    requires opt.Valid() && opt.compression.NoCompression? && Sorted(es) && NonEmptyKeys(es) && WithinBudget(opt, es)
    ensures Buildable(opt, es)
  {
    ValidOptions(opt);
    hide Closed, AddAll, Options.Valid, Weight, Total, IndexEntries, MetaEntries, FilterData, Contents, FilterCost,
         Sorted, NonEmptyKeys, Image, Fits;
    var st := Closed(opt, es);
    SameLengths(opt, es);
    PaidAll(opt, es);
    FilterDataSmall(opt, es);
    MetaSmall(opt, st);
    IndexSmall(opt, es);
    ImageLength(opt, st);
    FiltersAddressable(opt, es);
    UncompressedFits(opt, es);
  }

  const LONG: nat := 0x400_0000

  lemma TwoKeysWithinBudget(opt: Options, v: Bytes, w: Bytes)
    requires |v| <= LONG && |w| <= LONG && opt.policy.bitsPerKey <= 1_000_000
    ensures WithinBudget(opt, TwoKeys(v, w))
    ensures Sorted(TwoKeys(v, w)) && NonEmptyKeys(TwoKeys(v, w))
  {
    var es := TwoKeys(v, w);
    assert es[..1] == [es[0]] && es[..1][..0] == [];
    assert Weight(es[..1]) == EntryWeight(es[0]);
    assert Cmp(A[1..], A0[1..]) == Less;
  }

  /**
   Without compression and with values no longer than 64 MB nothing else is needed: there is a table of
   two pairs whose second key `get` does not find, no seek stands on, and `approx_offset_of` puts into
   the first block.
   */
  lemma SomeKeyIsMissed(opt: Options, v: Bytes, w: Bytes)
    requires opt.Valid() && opt.compression.NoCompression? && opt.policy.bitsPerKey <= 1_000_000
    requires opt.blockSize <= |v| <= LONG && |w| <= LONG
    ensures Buildable(opt, TwoKeys(v, w)) && Lookup(TwoKeys(v, w), A0) == Some(w)
    ensures GetAnswer(opt, TwoKeys(v, w), A0) == None
    ensures SeekMisses(opt, TwoKeys(v, w), A0, 1)
    ensures PlacedIn(opt, TwoKeys(v, w), A0, 0) && !PlacedIn(opt, TwoKeys(v, w), A0, 1)
  {
    ValidOptions(opt);
    hide Closed, Options.Valid, Fits, TwoKeys, WithinBudget, Lookup, GetAnswer, PlacedIn;
    TwoKeysWithinBudget(opt, v, w);
    WithinBudgetIsBuildable(opt, TwoKeys(v, w));
    GetMissesAKey(opt, v, w);
    OffsetMissesAKey(opt, v, w);
    SeekMissesInTwo(opt, v, w);
  }

  /** From no state of an iterator does a seek to `key` stand on pair `p`. */
  ghost predicate SeekMisses(opt: Options, es: seq<Entry>, key: Bytes, p: nat)
    requires opt.blockSize >= 8
  {
    var bs := Closed(opt, es).blocks;
    && |IndexOf(opt, es)| == |bs|
    && forall c: TCursor | c.Fits(Whole(bs)) :: !StandsAt(bs, c.Seek(Whole(bs), IndexOf(opt, es), key), p)
  }

  lemma SeekMissesInTwo(opt: Options, v: Bytes, w: Bytes)
    requires |v| >= opt.blockSize && Buildable(opt, TwoKeys(v, w))
    ensures SeekMisses(opt, TwoKeys(v, w), A0, 1)
  {
    ValidOptions(opt);
    hide Closed, Buildable, TwoKeys, StandsAt, TCursor.Fits, TCursor.Seek, Options.Valid, Whole;
    var es := TwoKeys(v, w);
    IndexHasLength(opt, es);
    var bs := Closed(opt, es).blocks;
    forall c: TCursor | c.Fits(Whole(bs)) ensures !StandsAt(bs, c.Seek(Whole(bs), IndexOf(opt, es), A0), 1) {
      SeekMissesAKey(opt, c, v, w);
    }
  }
}

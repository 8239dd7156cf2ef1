/**
 The filter block: one Bloom filter for every 2 KB of file offset, and where each begins.
 */
module FilterBlock {
  import opened Bytes
  import opened Codec
  import opened BlockFormat
  import opened Bloom
  import opened Seqs

  const FILTER_BASE_LOG2: nat := 11

  function ShiftRight(n: nat, bits: nat): nat {
    if bits == 0 then n else ShiftRight(n / 2, bits - 1)
  }

  /** `get_filter_index`. */
  function FilterIndex(offset: nat, baseLg2: nat): nat {
    ShiftRight(offset, baseLg2) % U32
  }

  function Pow2(bits: nat): (p: nat)
    ensures p > 0
  {
    if bits == 0 then 1 else 2 * Pow2(bits - 1)
  }

  lemma {:induction false} ShiftDivides(n: nat, bits: nat)
    ensures ShiftRight(n, bits) == n / Pow2(bits)
    decreases bits
  {
    if bits > 0 {
      ShiftDivides(n / 2, bits - 1);
      DivideTwice(n, 2, Pow2(bits - 1));
    }
  }

  lemma FilterIndexOf(offset: nat)
    requires offset < U32
    ensures FilterIndex(offset, FILTER_BASE_LOG2) == offset / 2048
  {
    ShiftDivides(offset, FILTER_BASE_LOG2);
    assert Pow2(4) == 16;
    assert Pow2(8) == 256;
    assert Pow2(11) == 2048;
  }

  // ---------- which keys go into which filter ----------

  /** The key lists of the finished filters, and the keys waiting for the next one. */
  datatype FilterKeys = FilterKeys(groups: seq<seq<Bytes>>, waiting: seq<Bytes>) {

    function AddKey(key: Bytes): FilterKeys {
      FilterKeys(groups, waiting + [key])
    }

    function Generate(): FilterKeys {
      FilterKeys(groups + [waiting], [])
    }

    /** Generates filters until there are `n`. */
    function FillTo(n: nat): FilterKeys
      decreases n - |groups|
    {
      if n <= |groups| then this else Generate().FillTo(n)
    }

    function StartBlock(offset: nat): FilterKeys {
      FillTo(FilterIndex(offset, FILTER_BASE_LOG2))
    }

    function Finished(): seq<seq<Bytes>> {
      if waiting == [] then groups else groups + [waiting]
    }

    predicate Addressable(p: BloomPolicy) {
      p.Addressable(|waiting|) && AllAddressable(p, groups)
    }
  }

  // ---------- the bytes ----------

  /** Every filter's bits can be addressed with 32-bit positions. */
  predicate AllAddressable(p: BloomPolicy, groups: seq<seq<Bytes>>) {
    forall i :: 0 <= i < |groups| ==> p.Addressable(|groups[i]|)
  }

  function FilterBytes(p: BloomPolicy, g: seq<Bytes>): Bytes
    requires p.Valid()
  {
    if g == [] then [] else p.FilterOf(g)
  }

  function FiltersData(p: BloomPolicy, groups: seq<seq<Bytes>>): Bytes
    requires p.Valid()
  {
    if groups == [] then []
    else
      var n := |groups| - 1;
      FiltersData(p, groups[..n]) + FilterBytes(p, groups[n])
  }

  /** Where each filter begins. */
  function FilterOffsets(p: BloomPolicy, groups: seq<seq<Bytes>>): (r: seq<nat>)
    requires p.Valid()
    ensures |r| == |groups|
  {
    if groups == [] then []
    else
      var n := |groups| - 1;
      FilterOffsets(p, groups[..n]) + [|FiltersData(p, groups[..n])|]
  }

  // All filter boundaries: the beginnings, then the end of the last filter.
  function Boundaries(p: BloomPolicy, groups: seq<seq<Bytes>>): (r: seq<nat>)
    requires p.Valid()
    ensures |r| == |groups| + 1
  {
    FilterOffsets(p, groups) + [|FiltersData(p, groups)|]
  }

  /** A whole filter block: filters, where they begin, where the last one ends, log2 of 2048. */
  function FilterBlockBytes(p: BloomPolicy, groups: seq<seq<Bytes>>): (b: Bytes)
    requires p.Valid()
    ensures |b| == |FiltersData(p, groups)| + 4 * |groups| + 5
  {
    FiltersData(p, groups) + FixedWords(Boundaries(p, groups)) + [FILTER_BASE_LOG2]
  }

  // ---------- the builder ----------

  class FilterBlockBuilder {
    const policy: BloomPolicy

    var filters: Bytes
    var filterOffsets: seq<nat>
    var keyOffsets: seq<nat>
    var keys: Bytes

    ghost var st: FilterKeys

    ghost predicate Valid()
      reads this
    {
      && policy.Valid()
      && filters == FiltersData(policy, st.groups)
      && filterOffsets == FilterOffsets(policy, st.groups)
      && keys == Concat(st.waiting)
      && keyOffsets == KeyOffsets(st.waiting)
      && (forall k :: k in st.waiting ==> k != [])
    }

    constructor (policy: BloomPolicy)
      requires policy.Valid()
      ensures Valid() && st == FilterKeys([], []) && this.policy == policy
    {
      this.policy := policy;
      filters, filterOffsets, keyOffsets, keys := [], [], [], [];
      st := FilterKeys([], []);
    }

    method AddKey(key: Bytes)
      requires Valid() && key != []
      modifies this
      ensures Valid() && st == old(st).AddKey(key)
    {
      keyOffsets := keyOffsets + [|keys|];
      keys := keys + key;
      assert (st.waiting + [key])[..|st.waiting|] == st.waiting;
      st := st.AddKey(key);
    }

    method GenerateFilter()
      requires Valid() && policy.Addressable(|st.waiting|)
      modifies this
      ensures Valid() && st == old(st).Generate()
    {
      hide BloomPolicy.BodyLen, BloomPolicy.FilterOf, FilterOffsets, FiltersData, Pieces;
      WaitingIsEmpty(st.waiting);
      PiecesOfConcat(st.waiting);
      FiltersSnoc(policy, st.groups, st.waiting);
      filterOffsets := filterOffsets + [|filters|];
      if keys == [] {
        st := st.Generate();
        return;
      }
      var filter := CreateFilter(policy, keys, keyOffsets);
      filters := filters + filter;
      keys := [];
      keyOffsets := [];
      st := st.Generate();
    }

    method StartBlock(offset: nat)
      requires Valid() && policy.Addressable(|st.waiting|) && policy.Addressable(0)
      requires FilterIndex(offset, FILTER_BASE_LOG2) >= |st.groups|
      modifies this
      ensures Valid() && st == old(st).StartBlock(offset)
    {
      var filterIx := FilterIndex(offset, FILTER_BASE_LOG2);
      assert filterIx >= |filterOffsets|;
      while filterIx > |filterOffsets|
        invariant Valid() && policy.Addressable(|st.waiting|)
        invariant st.FillTo(filterIx) == old(st).StartBlock(offset)
        decreases filterIx - |filterOffsets|
      {
        GenerateFilter();
      }
    }

    method Finish() returns (result: Bytes)
      requires Valid() && policy.Addressable(|st.waiting|)
      modifies this
      ensures result == FilterBlockBytes(policy, old(st).Finished())
    {
      hide FiltersData, FixedWords, EncodeFixed, FilterOffsets, BloomPolicy.BodyLen, FilterBytes;
      WaitingIsEmpty(st.waiting);
      if keys != [] {
        GenerateFilter();
      }
      ghost var groups := st.groups;
      assert groups == old(st).Finished();
      WordsSnoc(filterOffsets, |filters|);
      assert filters + FixedWords(filterOffsets) + EncodeFixed(|filters|, 4)
          == filters + (FixedWords(filterOffsets) + EncodeFixed(|filters|, 4));
      result := AppendWords(filters, filterOffsets);
      result := result + EncodeFixed(|filters|, 4);
      result := result + [FILTER_BASE_LOG2];
    }
  }

  // Writes 32-bit numbers behind `b`.
  method AppendWords(b: Bytes, ws: seq<nat>) returns (result: Bytes)
    ensures result == b + FixedWords(ws)
  {
    hide EncodeFixed;
    result := b;
    for i := 0 to |ws|
      invariant result == b + FixedWords(ws[..i])
    {
      assert ws[..i + 1][..i] == ws[..i];
      result := result + EncodeFixed(ws[i], 4);
    }
    assert ws[..|ws|] == ws;
  }

  // With non-empty keys, no key bytes means no keys.
  lemma WaitingIsEmpty(keys: seq<Bytes>)
    requires forall k :: k in keys ==> k != []
    ensures Concat(keys) == [] <==> keys == []
  {
    assert keys != [] ==> keys[|keys| - 1] in keys;
  }

  lemma FiltersSnoc(p: BloomPolicy, groups: seq<seq<Bytes>>, g: seq<Bytes>)
    requires p.Valid()
    ensures FiltersData(p, groups + [g]) == FiltersData(p, groups) + FilterBytes(p, g)
    ensures FilterOffsets(p, groups + [g]) == FilterOffsets(p, groups) + [|FiltersData(p, groups)|]
  {
    hide BloomPolicy.BodyLen, BloomPolicy.FilterOf;
    assert (groups + [g])[..|groups|] == groups;
  }

  // ---------- the reader ----------

  datatype FilterBlockReader = FilterBlockReader(block: Bytes, offsetsOffset: nat, baseLg2: nat) {

    predicate Valid() {
      offsetsOffset + 5 <= |block|
    }

    /** Number of filters. */
    function Num(): nat
      requires Valid()
    {
      (|block| - offsetsOffset - 5) / 4 % U32
    }

    predicate HasOffset(i: nat) {
      offsetsOffset + 4 * i + 4 <= |block|
    }

    function OffsetOf(i: nat): nat
      requires HasOffset(i)
    {
      var at := offsetsOffset + 4 * i;
      DecodeFixed(block[at..at + 4])
    }

    /** No index is out of range, and neither assertion of `key_may_match` fails. */
    predicate Answers(blkOffset: nat) {
      var ix := FilterIndex(blkOffset, baseLg2);
      && Valid()
      && (ix <= Num() ==>
            && HasOffset(ix) && HasOffset(ix + 1)
            && OffsetOf(ix) < OffsetOf(ix + 1) <= offsetsOffset
            && Checkable(block[OffsetOf(ix)..OffsetOf(ix + 1)]))
    }

    predicate KeyMayMatch(blkOffset: nat, key: Bytes)
      requires Answers(blkOffset)
    {
      var ix := FilterIndex(blkOffset, baseLg2);
      if ix > Num() then true
      else MayMatch(key, block[OffsetOf(ix)..OffsetOf(ix + 1)])
    }
  }

  /** `FilterBlockReader::new`. */
  function NewReader(data: Bytes): FilterBlockReader
    requires |data| >= 5
  {
    FilterBlockReader(data, DecodeFixed(data[|data| - 5..|data| - 1]), data[|data| - 1])
  }

  /** `FilterBlockReader::key_may_match`. */
  method ReaderKeyMayMatch(r: FilterBlockReader, blkOffset: nat, key: Bytes) returns (b: bool)
    requires r.Answers(blkOffset)
    ensures b == r.KeyMayMatch(blkOffset, key)
  {
    var ix := FilterIndex(blkOffset, r.baseLg2);
    if ix > r.Num() {
      return true;
    }
    var filterBegin := r.OffsetOf(ix);
    var filterEnd := r.OffsetOf(ix + 1);
    assert filterBegin < filterEnd;
    assert filterEnd <= r.offsetsOffset;
    b := Bloom.KeyMayMatch(key, r.block[filterBegin..filterEnd]);
  }

  lemma {:induction false} FilterAt(p: BloomPolicy, groups: seq<seq<Bytes>>, ix: nat)
    requires p.Valid() && ix < |groups|
    ensures var bs, data := Boundaries(p, groups), FiltersData(p, groups);
            && bs[ix] <= bs[ix + 1] <= |data|
            && data[bs[ix]..bs[ix + 1]] == FilterBytes(p, groups[ix])
    decreases |groups|
  {
    hide FilterBytes, BloomPolicy.BodyLen;
    var n := |groups| - 1;
    if ix < n {
      FilterAt(p, groups[..n], ix);
      assert groups[..n][ix] == groups[ix];
    }
  }

  /** What a reader finds in a built filter block. */
  lemma ReaderOfBuilt(p: BloomPolicy, groups: seq<seq<Bytes>>)
    requires p.Valid() && |FilterBlockBytes(p, groups)| < U32
    ensures var b := FilterBlockBytes(p, groups);
            var r := NewReader(b);
            && r == FilterBlockReader(b, |FiltersData(p, groups)|, FILTER_BASE_LOG2)
            && r.Valid() && r.Num() == |groups|
  {
    hide FiltersData, FixedWords, EncodeFixed, DecodeFixed, FilterOffsets;
    var b := FilterBlockBytes(p, groups);
    var data, ws := FiltersData(p, groups), FilterOffsets(p, groups);
    WordsSnoc(ws, |data|);
    assert b[|b| - 5..|b| - 1] == EncodeFixed(|data|, 4);
    Fixed32RoundTrip(|data|);
  }

  lemma BoundaryOfBuilt(p: BloomPolicy, groups: seq<seq<Bytes>>, i: nat)
    requires p.Valid() && |FilterBlockBytes(p, groups)| < U32 && i <= |groups|
    requires Boundaries(p, groups)[i] < U32
    ensures var r := NewReader(FilterBlockBytes(p, groups));
            r.HasOffset(i) && r.OffsetOf(i) == Boundaries(p, groups)[i]
  {
    hide FiltersData, Boundaries, FixedWords, DecodeFixed, NewReader, FilterBlockReader.Num, BloomPolicy.Valid;
    ReaderOfBuilt(p, groups);
    WordBehind(FiltersData(p, groups), Boundaries(p, groups), [FILTER_BASE_LOG2], i);
  }

  lemma WordBehind(data: Bytes, ws: seq<nat>, tail: Bytes, i: nat)
    requires i < |ws| && ws[i] < U32
    ensures var at := |data| + 4 * i;
            var b := data + FixedWords(ws) + tail;
            at + 4 <= |b| && DecodeFixed(b[at..at + 4]) == ws[i]
  {
    hide FixedWords, EncodeFixed, DecodeFixed;
    SliceOfMiddle(data, FixedWords(ws), tail, 4 * i, 4 * i + 4);
    FixedWordAt(ws, i);
    Fixed32RoundTrip(ws[i]);
  }

  lemma WordsSnoc(ws: seq<nat>, w: nat)
    ensures FixedWords(ws + [w]) == FixedWords(ws) + EncodeFixed(w, 4)
  {
    assert (ws + [w])[..|ws|] == ws;
  }

  /**
   For a block offset whose filter holds some keys the reader's assertions hold, and a key is ruled
   out exactly when it probes a position that none of them probes; so none of them is ruled out.
   */
  lemma BuiltFilterAnswers(p: BloomPolicy, groups: seq<seq<Bytes>>, blkOffset: nat, key: Bytes)
    requires p.Valid() && AllAddressable(p, groups) && |FilterBlockBytes(p, groups)| < U32
    requires var ix := FilterIndex(blkOffset, FILTER_BASE_LOG2); ix < |groups| && groups[ix] != []
    ensures var ix := FilterIndex(blkOffset, FILTER_BASE_LOG2);
            var r := NewReader(FilterBlockBytes(p, groups));
            && r.Answers(blkOffset)
            && Checkable(p.FilterOf(groups[ix]))
            && r.KeyMayMatch(blkOffset, key) == MayMatch(key, p.FilterOf(groups[ix]))
            && r.KeyMayMatch(blkOffset, key) == Covers(groups[ix], key, p.k, 8 * p.BodyLen(|groups[ix]|))
            && (key in groups[ix] ==> r.KeyMayMatch(blkOffset, key))
  {
    hide *;
    var ix := FilterIndex(blkOffset, FILTER_BASE_LOG2);
    var g := groups[ix];
    FilterSlice(p, groups, ix);
    ReaderOfBuilt(p, groups);
    MatchesExactly(p, g, key);
    AnswerOfSlice(NewReader(FilterBlockBytes(p, groups)), blkOffset, p.FilterOf(g), key);
    if key in g {
      var i :| 0 <= i < |g| && g[i] == key;
      NoFalseNegatives(p, g, i);
    }
  }

  /**
   The offsets a built block can be asked about: those of a filter with keys, and those more than one
   filter behind the last, for which every key may match. An offset whose filter has no keys, or the one
   right behind the last filter, makes an assertion or an index of the source fail.
   */
  lemma AnswersExactly(p: BloomPolicy, groups: seq<seq<Bytes>>, blkOffset: nat, key: Bytes)
    requires p.Valid() && AllAddressable(p, groups) && |FilterBlockBytes(p, groups)| < U32
    ensures var ix := FilterIndex(blkOffset, FILTER_BASE_LOG2);
            var r := NewReader(FilterBlockBytes(p, groups));
            && (r.Answers(blkOffset) <==> ix > |groups| || (ix < |groups| && groups[ix] != []))
            && (ix > |groups| ==> r.KeyMayMatch(blkOffset, key))
  {
    hide *;
    var ix := FilterIndex(blkOffset, FILTER_BASE_LOG2);
    ReaderOfBuilt(p, groups);
    if ix < |groups| {
      if groups[ix] != [] {
        BuiltFilterAnswers(p, groups, blkOffset, key);
      } else {
        EmptyFilterSlice(p, groups, ix);
        NotAnswered(NewReader(FilterBlockBytes(p, groups)), blkOffset);
      }
    } else {
      BehindLast(p, groups, blkOffset, key);
    }
  }

  lemma NotAnswered(r: FilterBlockReader, blkOffset: nat)
    requires var ix := FilterIndex(blkOffset, r.baseLg2);
             && r.Valid() && ix <= r.Num() && r.HasOffset(ix) && r.HasOffset(ix + 1)
             && r.OffsetOf(ix) == r.OffsetOf(ix + 1)
    ensures !r.Answers(blkOffset)
  {
    hide FilterIndex, DecodeFixed, Checkable;
  }

  lemma BehindLast(p: BloomPolicy, groups: seq<seq<Bytes>>, blkOffset: nat, key: Bytes)
    requires p.Valid() && |FilterBlockBytes(p, groups)| < U32
    requires FilterIndex(blkOffset, FILTER_BASE_LOG2) >= |groups|
    ensures var r := NewReader(FilterBlockBytes(p, groups));
            var ix := FilterIndex(blkOffset, FILTER_BASE_LOG2);
            && (r.Answers(blkOffset) <==> ix > |groups|)
            && (ix > |groups| ==> r.KeyMayMatch(blkOffset, key))
  {
    ReaderOfBuilt(p, groups);
    hide FilterIndex, DecodeFixed, Checkable, FilterBlockBytes, FilterBlockReader.Num, FiltersData, NewReader,
         FilterBlockReader.OffsetOf;
  }

  lemma EmptyFilterSlice(p: BloomPolicy, groups: seq<seq<Bytes>>, ix: nat)
    requires p.Valid() && |FilterBlockBytes(p, groups)| < U32
    requires ix < |groups| && groups[ix] == []
    ensures var r := NewReader(FilterBlockBytes(p, groups));
            && r.Valid() && r.HasOffset(ix) && r.HasOffset(ix + 1) && ix <= r.Num()
            && r.baseLg2 == FILTER_BASE_LOG2
            && r.OffsetOf(ix) == r.OffsetOf(ix + 1)
  {
    hide FiltersData, FixedWords, EncodeFixed, DecodeFixed, FilterOffsets, Boundaries, FilterBlockBytes,
         NewReader, FilterBlockReader.Num, FilterBlockReader.OffsetOf;
    ReaderOfBuilt(p, groups);
    FilterAt(p, groups, ix);
    BoundaryOfBuilt(p, groups, ix);
    BoundaryOfBuilt(p, groups, ix + 1);
  }

  // Filter `ix` of a built block, as the reader slices it.
  lemma FilterSlice(p: BloomPolicy, groups: seq<seq<Bytes>>, ix: nat)
    requires p.Valid() && AllAddressable(p, groups) && |FilterBlockBytes(p, groups)| < U32
    requires ix < |groups| && groups[ix] != []
    ensures p.Valid() && p.Addressable(|groups[ix]|)
    ensures var r := NewReader(FilterBlockBytes(p, groups));
            && r.Valid() && r.HasOffset(ix) && r.HasOffset(ix + 1)
            && ix < r.Num()
            && r.baseLg2 == FILTER_BASE_LOG2
            && r.OffsetOf(ix) < r.OffsetOf(ix + 1) <= r.offsetsOffset
            && r.block[r.OffsetOf(ix)..r.OffsetOf(ix + 1)] == p.FilterOf(groups[ix])
  {
    hide FiltersData, FixedWords, EncodeFixed, DecodeFixed, FilterOffsets, Boundaries, FilterBlockBytes,
         BloomPolicy.Addressable, BloomPolicy.FilterOf, BloomPolicy.BodyLen, NewReader, FilterBlockReader.Num,
         FilterBlockReader.OffsetOf;
    assert groups[ix] in groups && p.Addressable(|groups[ix]|);
    ReaderOfBuilt(p, groups);
    FilterAt(p, groups, ix);
    BoundaryOfBuilt(p, groups, ix);
    BoundaryOfBuilt(p, groups, ix + 1);
    StartsWithFilters(p, groups);
    var b, data, bs := FilterBlockBytes(p, groups), FiltersData(p, groups), Boundaries(p, groups);
    SliceOfMiddle([], data, b[|data|..], bs[ix], bs[ix + 1]);
  }

  lemma AnswerOfSlice(r: FilterBlockReader, blkOffset: nat, filter: Bytes, key: Bytes)
    requires var ix := FilterIndex(blkOffset, r.baseLg2);
             && r.Valid() && ix < r.Num() && r.HasOffset(ix) && r.HasOffset(ix + 1)
             && r.OffsetOf(ix) < r.OffsetOf(ix + 1) <= r.offsetsOffset
             && r.block[r.OffsetOf(ix)..r.OffsetOf(ix + 1)] == filter
    requires Checkable(filter)
    ensures r.Answers(blkOffset) && r.KeyMayMatch(blkOffset, key) == MayMatch(key, filter)
  {
    hide MayMatch, FilterIndex, DecodeFixed, Checkable;
  }

  lemma StartsWithFilters(p: BloomPolicy, groups: seq<seq<Bytes>>)
    requires p.Valid()
    ensures var b, data := FilterBlockBytes(p, groups), FiltersData(p, groups);
            |data| <= |b| && b == [] + data + b[|data|..]
  {
    hide FiltersData, FixedWords, EncodeFixed, FilterOffsets;
  }
}

/**
 What a build leaves no choice in: the bytes of every index key, and the keys of the filters in order.
 */
module BuildExact {
  import opened Bytes
  import opened Comparator
  import opened FilterBlock
  import opened TableFormat
  import opened Build
  import opened Seqs

  // ---------- index keys ----------

  /** The index key of every block that another follows is the shortest separator of the keys at the border. */
  ghost predicate SepsShortest(bs: seq<seq<Entry>>, seps: seq<Bytes>) {
    forall i :: 0 <= i < |seps| && i + 1 < |bs| ==> SepShortest(bs, i, seps[i])
  }

  ghost predicate SepShortest(bs: seq<seq<Entry>>, i: nat, sep: Bytes)
    requires i + 1 < |bs|
  {
    bs[i] != [] && bs[i + 1] != [] && IsShortestSep(sep, LastKey(bs[i]), FirstKey(bs[i + 1]))
  }

  lemma SepsShortestFlush(opt: Options, st: Built, e: Entry)
    requires opt.Valid() && |st.seps| == |st.blocks| && SepsShortest(AllBlocks(st), st.seps)
    requires MustFlush(opt, st)
    ensures var st' := Add(opt, st, e);
            |st'.seps| == |st'.blocks| && st'.pending != [] && SepsShortest(AllBlocks(st'), st'.seps)
  {
    var sep := ShortestSep(LastKey(st.pending), e.key);
    ShortestSepExact(LastKey(st.pending), e.key);
    FlushShape(opt, st, e);
    hide Add, MustFlush, ShortestSep, IsShortestSep;
    SepsShortestPush(AllBlocks(st), st.seps, [e], sep);
  }

  // What an addition does that finishes a block.
  lemma FlushShape(opt: Options, st: Built, e: Entry)
    requires opt.Valid() && MustFlush(opt, st)
    ensures st.pending != []
    ensures var st' := Add(opt, st, e);
            && st'.blocks == AllBlocks(st) && st'.pending == [e]
            && st'.seps == st.seps + [ShortestSep(LastKey(st.pending), e.key)]
  {
    EmptyBlockIsSmall(opt, st);
    hide Contents, Frame, Packed, FilterKeys.StartBlock, FilterKeys.AddKey, ShortestSep;
  }

  lemma SepsShortestPush(bs: seq<seq<Entry>>, seps: seq<Bytes>, b: seq<Entry>, sep: Bytes)
    requires |bs| == |seps| + 1 && SepsShortest(bs, seps) && bs[|seps|] != [] && b != []
    requires IsShortestSep(sep, LastKey(bs[|seps|]), FirstKey(b))
    ensures SepsShortest(bs + [b], seps + [sep])
  {
    hide IsShortestSep;
    forall i | 0 <= i < |seps + [sep]| ensures SepShortest(bs + [b], i, (seps + [sep])[i]) {
      if i < |seps| {
        assert SepShortest(bs, i, seps[i]);
      }
    }
  }

  lemma SepsShortestPut(opt: Options, st: Built, e: Entry)
    requires opt.Valid() && |st.seps| == |st.blocks| && SepsShortest(AllBlocks(st), st.seps)
    requires !MustFlush(opt, st) && (st.pending == [] ==> st.blocks == [])
    ensures var st' := Add(opt, st, e);
            |st'.seps| == |st'.blocks| && st'.pending != [] && SepsShortest(AllBlocks(st'), st'.seps)
  {
    hide Contents, Frame, Packed, FilterKeys.StartBlock, FilterKeys.AddKey, IsShortestSep, MustFlush;
    var all, st' := AllBlocks(st), Add(opt, st, e);
    assert st'.pending == st.pending + [e];
    forall i | 0 <= i < |st'.seps| ensures SepShortest(AllBlocks(st'), i, st'.seps[i]) {
      assert SepShortest(all, i, st.seps[i]);
    }
  }

  /** Over every build, whatever the order of its keys. */
  lemma {:induction false} SepsShortestAll(opt: Options, es: seq<Entry>)
    requires opt.Valid()
    ensures var st := AddAll(opt, es);
            && |st.seps| == |st.blocks| && (st.pending == [] ==> st.blocks == [])
            && SepsShortest(AllBlocks(st), st.seps)
    decreases |es|
  {
    hide Add, Contents, SepsShortest, MustFlush, AllBlocks;
    if es == [] {
      NoSeps();
    } else {
      var n := |es| - 1;
      SepsShortestAll(opt, es[..n]);
      if MustFlush(opt, AddAll(opt, es[..n])) {
        SepsShortestFlush(opt, AddAll(opt, es[..n]), es[n]);
      } else {
        SepsShortestPut(opt, AddAll(opt, es[..n]), es[n]);
      }
    }
  }

  lemma NoSeps()
    ensures SepsShortest(AllBlocks(START), START.seps)
  {
  }

  /**
   The index keys of a finished table: between two blocks the shortest separator, and at the end the
   shortest separator of the last key and its short successor.
   */
  lemma IndexKeysExact(opt: Options, es: seq<Entry>)
    requires opt.Valid() && es != []
    ensures var st := Closed(opt, es);
            var last := es[|es| - 1].key;
            && |st.seps| == |st.blocks| && |st.seps| > 0
            && SepsShortest(st.blocks, st.seps)
            && exists succ :: IsShortSucc(succ, last) && IsShortestSep(st.seps[|st.seps| - 1], last, succ)
  {
    SepsShortestAll(opt, es);
    NothingLost(opt, es);
    var open, last := AddAll(opt, es), es[|es| - 1].key;
    SuccFromExact(last, 0);
    ShortestSepExact(last, ShortSucc(last));
    CloseShape(opt, open);
    hide AddAll, Close, ShortestSep, IsShortestSep, IsShortSucc, SepShortest;
    LastSepFree(AllBlocks(open), open.seps, ShortestSep(last, ShortSucc(last)));
  }

  lemma CloseShape(opt: Options, st: Built)
    requires st.pending != []
    ensures var last := LastKey(st.pending);
            && Close(opt, st).blocks == AllBlocks(st)
            && Close(opt, st).seps == st.seps + [ShortestSep(last, ShortSucc(last))]
  {
    hide Contents, Frame, Packed, FilterKeys.StartBlock, ShortestSep, ShortSucc;
  }

  // The separator of the last block is not one between two blocks.
  lemma LastSepFree(bs: seq<seq<Entry>>, seps: seq<Bytes>, sep: Bytes)
    requires |bs| == |seps| + 1 && SepsShortest(bs, seps)
    ensures SepsShortest(bs, seps + [sep])
  {
    hide SepShortest;
  }

  // ---------- keys of the filters ----------

  function KeysOf(es: seq<Entry>): (ks: seq<Bytes>)
    ensures |ks| == |es| && forall i :: 0 <= i < |es| ==> ks[i] == es[i].key
  {
    seq(|es|, i requires 0 <= i < |es| => es[i].key)
  }

  function Join(groups: seq<seq<Bytes>>): seq<Bytes> {
    if groups == [] then [] else Join(groups[..|groups| - 1]) + groups[|groups| - 1]
  }

  /** All keys given to the filters, finished or not, in order. */
  function Joined(fk: FilterKeys): seq<Bytes> {
    Join(fk.groups) + fk.waiting
  }

  lemma JoinSnoc(groups: seq<seq<Bytes>>, g: seq<Bytes>)
    ensures Join(groups + [g]) == Join(groups) + g
  {
    assert (groups + [g])[..|groups|] == groups;
  }

  lemma {:induction false} FillToKeepsKeys(fk: FilterKeys, n: nat)
    ensures Joined(fk.FillTo(n)) == Joined(fk)
    decreases n - |fk.groups|
  {
    if n > |fk.groups| {
      JoinSnoc(fk.groups, fk.waiting);
      AppendNothing(Join(fk.groups) + fk.waiting);
      FillToKeepsKeys(fk.Generate(), n);
    }
  }

  lemma KeysPut(fk: FilterKeys, es: seq<Entry>, e: Entry)
    requires Joined(fk) == KeysOf(es)
    ensures Joined(fk.AddKey(e.key)) == KeysOf(es + [e])
  {
    Assoc(Join(fk.groups), fk.waiting, [e.key]);
    assert KeysOf(es + [e]) == KeysOf(es) + [e.key];
  }

  /** The filters' keys, one filter behind the other, are the keys added, in order: none more and none less. */
  lemma {:induction false} FiltersInOrder(opt: Options, es: seq<Entry>)
    requires opt.Valid()
    ensures Joined(AddAll(opt, es).filt) == KeysOf(es)
    ensures Joined(Closed(opt, es).filt) == KeysOf(es)
    decreases |es|
  {
    hide Contents, Frame, Packed, FilterIndex, Joined, KeysOf, FilterKeys.FillTo, FilterKeys.AddKey;
    if es == [] {
      NoKeys();
    } else {
      var n := |es| - 1;
      var st, st' := AddAll(opt, es[..n]), AddAll(opt, es);
      FiltersInOrder(opt, es[..n]);
      if MustFlush(opt, st) {
        EmptyBlockIsSmall(opt, st);
        FlushKeepsKeys(opt, st, es[n].key);
        KeysPut(Flush(opt, st, es[n].key).filt, es[..n], es[n]);
      } else {
        KeysPut(st.filt, es[..n], es[n]);
      }
      assert es[..n] + [es[n]] == es;
      if st'.pending != [] {
        FlushKeepsKeys(opt, st', ShortSucc(LastKey(st'.pending)));
      }
    }
  }

  lemma NoKeys()
    ensures Joined(START.filt) == KeysOf([])
  {
  }

  lemma FlushKeepsKeys(opt: Options, st: Built, nextKey: Bytes)
    requires st.pending != []
    ensures Joined(Flush(opt, st, nextKey).filt) == Joined(st.filt)
  {
    hide Contents, Frame, Packed, FilterIndex, Joined, ShortestSep, FilterKeys.FillTo;
    FillToKeepsKeys(st.filt, FilterIndex(|Flush(opt, st, nextKey).file|, FILTER_BASE_LOG2));
  }
}

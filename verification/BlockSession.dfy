/**
 Blocks from builder to iterator: pairs are added one by one, and the finished bytes are iterated.
 */
module BlockSessions {
  import opened Bytes
  import opened BlockFormat
  import opened BlockBuilding
  import opened BlockIteration
  import opened Cursors

  /** What can go into one block. */
  ghost predicate Blockable(es: seq<Entry>, interval: nat) {
    interval >= 1 && Sorted(es) && NonEmptyKeys(es) && |BlockBytes(es, interval)| < U32
  }

  method BuildBlock(es: seq<Entry>, interval: nat) returns (contents: Bytes)
    requires interval >= 1 && Sorted(es)
    ensures contents == BlockBytes(es, interval)
  {
    hide BlockBytes, Data, Restarts, Lt, BlockBuilder.Valid;
    var builder := new BlockBuilder(interval);
    for i := 0 to |es|
      invariant fresh(builder) && builder.Valid() && builder.interval == interval && builder.es == es[..i]
    {
      assert i > 0 ==> Lt(es[i - 1].key, es[i].key);
      builder.Add(es[i].key, es[i].val);
      assert es[..i + 1] == es[..i] + [es[i]];
    }
    assert es[..|es|] == es;
    contents := builder.Finish();
  }

  method OpenBlock(contents: Bytes, ghost es: seq<Entry>, ghost interval: nat) returns (iter: BlockIter)
    requires Blockable(es, interval) && contents == BlockBytes(es, interval)
    ensures fresh(iter) && iter.Valid() && iter.Pos() == FRESH && iter.l.es == es
  {
    BuiltBlockHasLayout(es, interval);
    hide BlockBytes, Layout.Of, BlockIter.Valid;
    iter := new BlockIter(contents, LayoutOf(es, interval));
  }

  /** Iterating over a finished block yields the pairs added, in order. */
  method BlockRoundTrip(es: seq<Entry>, interval: nat) returns (out: seq<Entry>)
    requires Blockable(es, interval)
    ensures out == es
  {
    hide BlockBytes, Layout.Of, BlockIter.Valid, Sorted, NonEmptyKeys;
    var contents := BuildBlock(es, interval);
    var iter := OpenBlock(contents, es, interval);
    out := iter.DrainAll();
  }

  /** Any run on a finished block shows what the abstract cursor over the pairs shows. */
  method BlockRun(es: seq<Entry>, interval: nat, ops: seq<Op>) returns (out: seq<Option<Entry>>)
    requires Blockable(es, interval)
    requires forall op :: op in ops ==> Allowed(es, op)
    ensures FRESH.Fits(|es|) && out == Observe(es, FRESH, ops)
  {
    hide BlockBytes, Layout.Of, BlockIter.Valid, Sorted, NonEmptyKeys;
    var contents := BuildBlock(es, interval);
    var iter := OpenBlock(contents, es, interval);
    out := iter.RunAll(ops);
  }
}

/**
 Where a seek over the whole table lands, for blocks with separators.
 */
module TableSeeking {
  import opened Bytes
  import opened Build
  import opened Cursors
  import opened Separation
  import opened TableCursors

  /** All blocks readable. */
  function Whole(bs: seq<seq<Entry>>): (r: Blocks)
    ensures |r| == |bs| && forall i :: 0 <= i < |r| ==> r[i] == Some(bs[i])
  {
    seq(|bs|, i requires 0 <= i < |bs| => Some(bs[i]))
  }

  lemma {:induction false} ReadableWhole(bs: seq<seq<Entry>>)
    ensures Readable(Whole(bs)) == bs && All(Whole(bs)) == Flatten(bs)
    decreases |bs|
  {
    if bs != [] {
      var n := |bs| - 1;
      assert Whole(bs)[..n] == Whole(bs[..n]);
      ReadableWhole(bs[..n]);
      assert bs == bs[..n] + [bs[n]];
    }
  }

  lemma UptoWhole(bs: seq<seq<Entry>>, i: nat)
    requires i <= |bs|
    ensures Upto(Whole(bs), i) == Flatten(bs[..i])
  {
    assert Whole(bs)[..i] == Whole(bs[..i]);
    ReadableWhole(bs[..i]);
  }

  lemma LowerBoundUnique(es: seq<Entry>, to: Bytes, q: nat)
    requires q <= |es| && (forall j :: 0 <= j < q ==> Lt(es[j].key, to)) && (q < |es| ==> !Lt(es[q].key, to))
    ensures LowerBound(es, to) == q
  {
  }

  lemma BelowChosen(bs: seq<seq<Entry>>, seps: seq<Bytes>, to: Bytes, i: nat, e: Entry)
    requires SeparatedBy(bs, seps) && Chosen(bs, seps, to, i) && e in Flatten(bs[..i])
    ensures Lt(e.key, to)
  {
    InFlatten(bs[..i], e);
    var j :| 0 <= j < i && e in bs[..i][j];
    var m :| 0 <= m < |bs[j]| && bs[j][m] == e;
    KeyBelow(bs, seps, j, m, i - 1);
    TotalOrder(e.key, seps[i - 1], to);
  }

  // The first entry behind the chosen block is not below the target.
  lemma AboveChosen(bs: seq<seq<Entry>>, seps: seq<Bytes>, to: Bytes, i: nat)
    requires SeparatedBy(bs, seps) && Chosen(bs, seps, to, i) && i + 1 < |bs|
    ensures bs[i + 1] != [] && !Lt(bs[i + 1][0].key, to)
  {
    KeyAbove(bs, seps, i + 1, 0, i);
    TotalOrder(to, seps[i], bs[i + 1][0].key);
    TotalOrder(to, bs[i + 1][0].key, to);
  }

  lemma AtOrdinal(bs: Blocks, k: nat, es: seq<Entry>, m: nat)
    requires k < |bs| && bs[k] == Some(es) && m < |es|
    ensures var p := |Upto(bs, k)| + m; p < |All(bs)| && All(bs)[p] == es[m]
  {
    PlaceInTable(bs, k, es, m);
  }

  // Entry `m` of block `i` in the whole table.
  lemma EntryInTable(bs: seq<seq<Entry>>, i: nat, m: nat)
    requires i < |bs| && m < |bs[i]|
    ensures |Flatten(bs[..i])| + m < |Flatten(bs)| && Flatten(bs)[|Flatten(bs[..i])| + m] == bs[i][m]
  {
    ReadableWhole(bs);
    UptoWhole(bs, i);
    hide *;
    AtOrdinal(Whole(bs), i, bs[i], m);
  }

  // Everything in front of the block's own lower bound is below the target.
  lemma BelowBound(bs: seq<seq<Entry>>, seps: seq<Bytes>, to: Bytes, i: nat, j: nat)
    requires SeparatedBy(bs, seps) && Chosen(bs, seps, to, i)
    requires j < |Flatten(bs[..i])| + (if i < |bs| then LowerBound(bs[i], to) else 0)
    ensures j < |Flatten(bs)| && Lt(Flatten(bs)[j].key, to)
  {
    assert i <= |bs|;
    hide Flatten, SeparatedBy, Chosen, Cmp, LowerBound;
    var pre := Flatten(bs[..i]);
    PrefixOfTable(bs, i);
    if j < |pre| {
      BelowChosen(bs, seps, to, i, pre[j]);
    } else {
      EntryInTable(bs, i, j - |pre|);
    }
  }

  /** The lower bound in the whole table, by way of the chosen block. */
  lemma TableLowerBound(bs: seq<seq<Entry>>, seps: seq<Bytes>, to: Bytes, i: nat)
    requires SeparatedBy(bs, seps) && Chosen(bs, seps, to, i)
    ensures var q := LowerBound(Flatten(bs), to);
            && q == |Flatten(bs[..i])| + (if i < |bs| then LowerBound(bs[i], to) else 0)
            && (q == |Flatten(bs)| <==> i == |bs| || (i == |bs| - 1 && LowerBound(bs[i], to) == |bs[i]|))
  {
    assert i <= |bs|;
    hide Flatten, SeparatedBy, Chosen, Cmp, LowerBound;
    var all := Flatten(bs);
    var m := if i < |bs| then LowerBound(bs[i], to) else 0;
    var q := |Flatten(bs[..i])| + m;
    forall j | 0 <= j < q ensures j < |all| && Lt(all[j].key, to) {
      BelowBound(bs, seps, to, i, j);
    }
    assert q <= |all| by { if q > 0 { BelowBound(bs, seps, to, i, q - 1); } }
    if i == |bs| {
      assert bs[..i] == bs;
    } else if m < |bs[i]| {
      EntryInTable(bs, i, m);
    } else {
      EndOfBlock(bs, i);
      if i + 1 < |bs| {
        AboveChosen(bs, seps, to, i);
        EntryInTable(bs, i + 1, 0);
      }
    }
    LowerBoundUnique(all, to, q);
  }

  lemma PrefixOfTable(bs: seq<seq<Entry>>, i: nat)
    requires i <= |bs|
    ensures |Flatten(bs[..i])| <= |Flatten(bs)|
    ensures forall p :: 0 <= p < |Flatten(bs[..i])| ==> Flatten(bs)[p] == Flatten(bs[..i])[p]
  {
    ReadableWhole(bs);
    UptoWhole(bs, i);
    UptoAndRest(Whole(bs), i);
    hide Flatten, All, Upto, Rest;
  }

  lemma EndOfBlock(bs: seq<seq<Entry>>, i: nat)
    requires i < |bs|
    ensures |Flatten(bs[..i + 1])| == |Flatten(bs[..i])| + |bs[i]|
    ensures i + 1 == |bs| ==> Flatten(bs[..i + 1]) == Flatten(bs)
  {
    assert bs[..i + 1][..i] == bs[..i];
    assert i + 1 == |bs| ==> bs[..i + 1] == bs;
  }

  // ---------- seek ----------

  /** The target is above the last key of a block, yet not above the block's separator. */
  ghost predicate InGap(bs: seq<seq<Entry>>, seps: seq<Bytes>, to: Bytes)
    requires |seps| == |bs|
  {
    exists i :: 0 <= i < |bs| - 1 && GapAt(bs, seps, to, i)
  }

  ghost predicate GapAt(bs: seq<seq<Entry>>, seps: seq<Bytes>, to: Bytes, i: nat)
    requires |seps| == |bs| && i < |bs| - 1
  {
    bs[i] != [] && Lt(LastKey(bs[i]), to) && Le(to, seps[i])
  }

  /** On entry `p` of the table, or invalid when there is no such entry. */
  predicate StandsAt(bs: seq<seq<Entry>>, c: TCursor, p: nat) {
    if p < |Flatten(bs)| then c.OnEntry(Whole(bs)) && c.Ordinal(Whole(bs)) == p else !c.Valid()
  }

  ghost predicate IndexHas(index: seq<Entry>, seps: seq<Bytes>) {
    |index| == |seps| && forall i :: 0 <= i < |seps| ==> index[i].key == seps[i]
  }

  lemma SeekChooses(bs: seq<seq<Entry>>, seps: seq<Bytes>, index: seq<Entry>, to: Bytes)
    requires SeparatedBy(bs, seps) && IndexHas(index, seps)
    ensures Chosen(bs, seps, to, LowerBound(index, to))
  {
    var i := LowerBound(index, to);
    if i < |bs| {
      TotalOrder(to, seps[i], to);
    }
  }

  // A gap can only be the one of the chosen block, and there the block has no key to stop at.
  lemma GapIsAtChosen(bs: seq<seq<Entry>>, seps: seq<Bytes>, to: Bytes, i: nat)
    requires SeparatedBy(bs, seps) && Chosen(bs, seps, to, i)
    ensures InGap(bs, seps, to) <==> i < |bs| - 1 && LowerBound(bs[i], to) == |bs[i]|
  {
    if j :| 0 <= j < |bs| - 1 && GapAt(bs, seps, to, j) {
      ChosenIsUnique(bs, seps, to, i, j);
      if LowerBound(bs[i], to) < |bs[i]| {
        WithinBlock(bs[i], LowerBound(bs[i], to));
        TotalOrder(bs[i][LowerBound(bs[i], to)].key, LastKey(bs[i]), to);
      }
    }
    if i < |bs| - 1 && LowerBound(bs[i], to) == |bs[i]| {
      assert GapAt(bs, seps, to, i);
    }
  }

  lemma ChosenIsUnique(bs: seq<seq<Entry>>, seps: seq<Bytes>, to: Bytes, i: nat, j: nat)
    requires SeparatedBy(bs, seps) && Chosen(bs, seps, to, i) && j < |bs| - 1 && GapAt(bs, seps, to, j)
    ensures i == j
  {
    hide LowerBound, Cmp;
    if i < j {
      KeyAbove(bs, seps, j, |bs[j]| - 1, i);
      TotalOrder(to, seps[i], LastKey(bs[j]));
      TotalOrder(to, LastKey(bs[j]), to);
    } else if j < i {
      if j < i - 1 {
        SepsIncrease(bs, seps, j, i - 1);
        TotalOrder(seps[j], seps[i - 1], to);
      }
      TotalOrder(seps[j], to, seps[j]);
    }
  }

  /** A seek lands on the first entry of the whole table at or above the target exactly outside the gaps. */
  lemma SeekLandsOutsideGaps(bs: seq<seq<Entry>>, seps: seq<Bytes>, index: seq<Entry>, c: TCursor, to: Bytes)
    requires SeparatedBy(bs, seps) && IndexHas(index, seps) && c.Fits(Whole(bs))
    ensures StandsAt(bs, c.Seek(Whole(bs), index, to), LowerBound(Flatten(bs), to)) <==> !InGap(bs, seps, to)
  {
    var i := LowerBound(index, to);
    assert |index| == |bs|;
    SeekChooses(bs, seps, index, to);
    TableLowerBound(bs, seps, to, i);
    GapIsAtChosen(bs, seps, to, i);
    hide SeparatedBy, Chosen, InGap, Flatten, LowerBound, Upto, Cmp;
    if i < |bs| {
      UptoWhole(bs, i);
    }
  }

  /**
   Inside a gap the iterator is left invalid, and an advance goes back to the beginning of the block in
   front of the target.
   */
  lemma SeekIntoGap(bs: seq<seq<Entry>>, seps: seq<Bytes>, index: seq<Entry>, c: TCursor, to: Bytes)
    requires SeparatedBy(bs, seps) && IndexHas(index, seps) && c.Fits(Whole(bs)) && InGap(bs, seps, to)
    ensures var c' := c.Seek(Whole(bs), index, to);
            && !c'.Valid()
            && c'.Advance(Whole(bs)).OnEntry(Whole(bs))
            && Lt(c'.Advance(Whole(bs)).Current(Whole(bs)).value.key, to)
  {
    SeekChooses(bs, seps, index, to);
    GapIsAtChosen(bs, seps, to, LowerBound(index, to));
    hide Cmp;
  }

  /** For the key of an entry, a gap is a boundary: the key is the one before it and a zero byte. */
  lemma GapOfPresentKey(bs: seq<seq<Entry>>, seps: seq<Bytes>, j: nat, m: nat)
    requires SeparatedBy(bs, seps) && j < |bs| && m < |bs[j]|
    ensures InGap(bs, seps, bs[j][m].key) <==> Boundary(bs, bs[j][m].key)
  {
    hide LowerBound, Cmp;
    var key := bs[j][m].key;
    if i :| 0 <= i < |bs| - 1 && GapAt(bs, seps, key, i) {
      GapChooses(bs, seps, key, i);
      WhereKeyIs(bs, seps, key, i, j, m);
      if j == i {
        WithinBlock(bs[i], m);
        TotalOrder(key, LastKey(bs[i]), key);
      }
    }
    if i :| 0 <= i < |bs| - 1 && BoundaryAt(bs, i, key) {
      BoundaryIsSeparator(bs, seps, i, key);
      TotalOrder(key, key, key);
      assert SepOk(bs, i, seps[i]);
      assert GapAt(bs, seps, key, i);
    }
  }

  lemma GapChooses(bs: seq<seq<Entry>>, seps: seq<Bytes>, to: Bytes, i: nat)
    requires SeparatedBy(bs, seps) && i < |bs| - 1 && GapAt(bs, seps, to, i)
    ensures Chosen(bs, seps, to, i)
  {
    if i > 0 {
      KeyAbove(bs, seps, i, |bs[i]| - 1, i - 1);
      TotalOrder(seps[i - 1], LastKey(bs[i]), to);
    }
  }

  // ---------- with blocks that cannot be read ----------

  /** The block a seek goes to: the first whose index key is not below the target; `|bs|` if there is none. */
  ghost predicate SeeksBlock(index: seq<Entry>, to: Bytes, i: nat) {
    && i <= |index|
    && (forall j :: 0 <= j < i ==> Lt(index[j].key, to))
    && (i < |index| ==> !Lt(index[i].key, to))
  }

  /**
   When that block can be read, the seek stands on its first entry not below the target and the blocks
   behind it are ahead; without such an entry the iterator is invalid.
   */
  lemma SeekInReadable(bs: Blocks, index: seq<Entry>, c: TCursor, to: Bytes, i: nat)
    requires c.Fits(bs) && |index| == |bs| && SeeksBlock(index, to, i) && i < |bs| && bs[i].Some?
    ensures var es, c' := bs[i].value, c.Seek(bs, index, to);
            && (c'.Valid() <==> exists e :: e in es && !Lt(e.key, to))
            && (c'.Valid() ==>
                  && c'.OnEntry(bs) && c'.ix.last == i
                  && !Lt(c'.Current(bs).value.key, to)
                  && c'.Current(bs) == Some(es[c'.cur.value.pos.last])
                  && (forall j :: 0 <= j < c'.cur.value.pos.last ==> Lt(es[j].key, to))
                  && Traverse(bs, c').0 == es[c'.cur.value.pos.last + 1..] + Rest(bs, i + 1))
  {
    LowerBoundUnique(index, to, i);
    SeekOutcome(bs[i].value, FRESH, to);
    TraverseYieldsAhead(bs, c.Seek(bs, index, to));
    hide LowerBound, Rest, Traverse, Cmp;
  }

  /**
   When it cannot be read, or every index key is below the target, the iterator is reset: it is invalid
   and a traversal starts over with the first block.
   */
  lemma SeekFails(bs: Blocks, index: seq<Entry>, c: TCursor, to: Bytes, i: nat)
    requires c.Fits(bs) && |index| == |bs| && SeeksBlock(index, to, i) && (i == |bs| || bs[i] == None)
    ensures var c' := c.Seek(bs, index, to);
            && !c'.Valid() && c'.Current(bs) == None
            && Traverse(bs, c') == (All(bs), EndOfTable(bs))
  {
    LowerBoundUnique(index, to, i);
    TraverseFromStart(bs, c.Seek(bs, index, to));
    hide LowerBound, Traverse, All;
  }

  /**
   Backwards such an iterator goes on from the block that could not be read, or from the last one: to the
   last entry of the block before, if there is one that can be read.
   */
  lemma PrevAfterFailedSeek(bs: Blocks, index: seq<Entry>, c: TCursor, to: Bytes, i: nat)
    requires NoEmptyBlock(bs)
    requires c.Fits(bs) && |index| == |bs| && SeeksBlock(index, to, i) && (i == |bs| || bs[i] == None)
    ensures var k := if i == |bs| then i - 2 else i - 1;
            var c' := c.Seek(bs, index, to).Prev(bs);
            if k >= 0 && bs[k].Some? then c'.Current(bs) == Some(LastOf(bs[k].value)) && c'.OnEntry(bs)
            else !c'.Valid()
  {
    LowerBoundUnique(index, to, i);
    hide LowerBound;
  }

  function LastOf(es: seq<Entry>): Entry
    requires es != []
  {
    es[|es| - 1]
  }
}

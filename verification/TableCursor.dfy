/**
 The abstract cursor a table iterator refines: a cursor over the index, and a cursor in the block that
 is loaded.
 */
module TableCursors {
  import opened Bytes
  import opened Build
  import opened Cursors
  import opened Separation
  import opened Seqs

  /** For every block its entries, or nothing when it cannot be read. */
  type Blocks = seq<Option<seq<Entry>>>

  datatype Loaded = Loaded(block: nat, pos: Cursor)

  /** No block without entries is ever written; `seek_to_last` relies on it. */
  ghost predicate NoEmptyBlock(bs: Blocks) {
    forall i :: 0 <= i < |bs| ==> bs[i] != Some([])
  }

  datatype TCursor = TCursor(ix: Cursor, cur: Option<Loaded>) {

    /**
     The loaded block is the one the index visited last. It can stay loaded when the index leaves its
     first entry backwards, which makes the index invalid.
     */
    predicate Fits(bs: Blocks) {
      Loose(bs) && (cur == None ==> !ix.valid)
    }

    /** As between two index entries, when the block of the first has been left. */
    predicate Loose(bs: Blocks) {
      && ix.Fits(|bs|)
      && match cur
         case None => true
         case Some(Loaded(block, pos)) =>
           && block == ix.last < |bs| && (ix.valid || block == 0)
           && bs[block].Some? && pos.Fits(|bs[block].value|)
    }

    predicate Valid() {
      cur.Some? && cur.value.pos.valid
    }

    function Current(bs: Blocks): Option<Entry>
      requires Fits(bs)
    {
      match cur
      case None => None
      case Some(Loaded(block, pos)) => pos.Current(bs[block].value)
    }

    /** Moves the index on and loads the block it points to, if that can be read. */
    static function Skip(bs: Blocks, ix: Cursor): (c: TCursor)
      requires ix.Fits(|bs|)
      ensures c.Loose(bs)
    {
      var ix' := ix.Advance(|bs|);
      TCursor(ix', if ix'.valid && bs[ix'.last].Some? then Some(Loaded(ix'.last, FRESH)) else None)
    }

    /** The next entry of the loaded block, or of the first block behind it that has one. */
    function Advance(bs: Blocks): (c: TCursor)
      requires Loose(bs)
      ensures c.Fits(bs)
      decreases |bs| - ix.Next()
    {
      if cur.Some? && cur.value.pos.Advance(|bs[cur.value.block].value|).valid then
        TCursor(ix, Some(Loaded(cur.value.block, cur.value.pos.Advance(|bs[cur.value.block].value|))))
      else
        var c' := Skip(bs, ix);
        if c'.ix.valid then c'.Advance(bs) else c'
    }

    function Reset(): TCursor {
      TCursor(ix.Reset(), None)
    }

    /** To the last entry of the block before the one the index is on. */
    function BackABlock(bs: Blocks): (c: TCursor)
      requires Fits(bs)
      requires NoEmptyBlock(bs)
      ensures c.Fits(bs)
    {
      var ix' := ix.Prev();
      if ix.last == 0 then TCursor(ix', cur)
      else if bs[ix'.last].Some? then TCursor(ix', Some(Loaded(ix'.last, Cursor.SeekToLast(|bs[ix'.last].value|))))
      else TCursor(ix'.Reset(), None)
    }

    /** The entry before in the loaded block, or the last entry of the block before. */
    function Prev(bs: Blocks): (c: TCursor)
      requires Fits(bs)
      requires NoEmptyBlock(bs)
      ensures c.Fits(bs)
    {
      if cur.Some? then
        var c' := TCursor(ix, Some(Loaded(cur.value.block, cur.value.pos.Prev())));
        if cur.value.pos.last > 0 then c' else c'.BackABlock(bs)
      else BackABlock(bs)
    }

    /** `index` are the entries of the index block. */
    function Seek(bs: Blocks, index: seq<Entry>, to: Bytes): (c: TCursor)
      requires Fits(bs) && |index| == |bs|
      ensures c.Fits(bs)
    {
      var ix' := ix.Seek(index, to);
      if ix'.valid && bs[ix'.last].Some? then
        TCursor(ix', Some(Loaded(ix'.last, FRESH.Seek(bs[ix'.last].value, to))))
      else TCursor(ix'.Reset(), None)
    }

    /** The entries a forward traversal still has in front of it. */
    function Ahead(bs: Blocks): seq<Entry>
      requires Loose(bs)
    {
      (if cur.Some? then Behind(bs[cur.value.block].value, cur.value.pos) else []) + Rest(bs, ix.Next())
    }

    /** Standing on an entry of the block the index is on. */
    predicate OnEntry(bs: Blocks) {
      Fits(bs) && Valid() && ix.valid
    }

    /** How many readable entries precede the current one in the table. */
    function Ordinal(bs: Blocks): nat
      requires OnEntry(bs)
    {
      |Upto(bs, ix.last)| + cur.value.pos.last
    }
  }

  /** `Table::iter`. */
  const START_OF_TABLE := TCursor(FRESH, None)

  /** As a traversal leaves it that has run out of entries. */
  function EndOfTable(bs: Blocks): TCursor {
    TCursor(Cursor.AtEnd(|bs|), None)
  }

  lemma FreshFits(n: nat)
    ensures FRESH.Fits(n)
  {
  }

  function Behind(es: seq<Entry>, pos: Cursor): seq<Entry>
    requires pos.Fits(|es|)
  {
    es[pos.Next()..]
  }

  function EntriesOf(b: Option<seq<Entry>>): seq<Entry> {
    if b.Some? then b.value else []
  }

  /** The entries of the readable blocks from `i` on. */
  function Rest(bs: Blocks, i: nat): seq<Entry>
    decreases |bs| - i
  {
    if i >= |bs| then [] else EntriesOf(bs[i]) + Rest(bs, i + 1)
  }

  /** The readable blocks. */
  function Readable(bs: Blocks): seq<seq<Entry>> {
    if bs == [] then []
    else Readable(bs[..|bs| - 1]) + (if bs[|bs| - 1].Some? then [bs[|bs| - 1].value] else [])
  }

  /** The entries of the readable blocks before `i`. */
  function Upto(bs: Blocks, i: nat): seq<Entry>
    requires i <= |bs|
  {
    Flatten(Readable(bs[..i]))
  }

  /** Everything a client can read of the table. */
  function All(bs: Blocks): seq<Entry> {
    Flatten(Readable(bs))
  }

  lemma UptoNext(bs: Blocks, i: nat)
    requires i < |bs|
    ensures Upto(bs, i + 1) == Upto(bs, i) + EntriesOf(bs[i])
  {
    assert bs[..i + 1][..i] == bs[..i] && bs[..i + 1] != [];
    var before := Readable(bs[..i]);
    if bs[i].Some? {
      assert Readable(bs[..i + 1]) == before + [bs[i].value];
      hide Readable, Flatten;
      FlattenSnoc(before, bs[i].value);
    } else {
      assert Readable(bs[..i + 1]) == before + [];
      hide Readable, Flatten;
      assert before + [] == before;
      AppendNothing(Flatten(before));
    }
  }

  lemma NothingBefore(bs: Blocks)
    ensures Upto(bs, 0) == []
  {
    assert bs[..0] == [];
  }

  lemma {:induction false} UptoAndRest(bs: Blocks, i: nat)
    requires i <= |bs|
    ensures Upto(bs, i) + Rest(bs, i) == All(bs)
    decreases |bs| - i
  {
    hide Readable, Flatten, EntriesOf;
    if i == |bs| {
      assert bs[..i] == bs;
      AppendNothing(All(bs));
    } else {
      UptoAndRest(bs, i + 1);
      UptoNext(bs, i);
      Assoc(Upto(bs, i), EntriesOf(bs[i]), Rest(bs, i + 1));
    }
  }

  // ---------- forward ----------

  lemma SkipKeepsAhead(bs: Blocks, c: TCursor)
    requires c.Loose(bs)
    requires c.cur.Some? ==> !c.cur.value.pos.Advance(|bs[c.cur.value.block].value|).valid
    ensures var c' := TCursor.Skip(bs, c.ix);
            if c'.ix.valid then c.Ahead(bs) == c'.Ahead(bs)
            else c.Ahead(bs) == [] && c' == EndOfTable(bs)
  {
    assert c.cur.Some? ==> Behind(bs[c.cur.value.block].value, c.cur.value.pos) == [];
    PrependNothing(Rest(bs, c.ix.Next()));
    var c' := TCursor.Skip(bs, c.ix);
    if c'.cur.Some? {
      DropNothing(bs[c'.ix.last].value);
    } else if c'.ix.valid {
      assert Rest(bs, c'.ix.last) == [] + Rest(bs, c'.ix.Next());
    }
  }

  /** An advance takes the first of the entries ahead; without any it leaves the iterator reset. */
  lemma {:induction false} AdvanceTakesHead(bs: Blocks, c: TCursor)
    requires c.Loose(bs)
    ensures var c' := c.Advance(bs);
            && (if c'.Valid() then c.Ahead(bs) == [c'.Current(bs).value] + c'.Ahead(bs)
                else c.Ahead(bs) == [] && c' == EndOfTable(bs))
            && (c'.Valid() && (c.ix.valid || c.cur == None) ==> c'.OnEntry(bs))
    decreases |bs| - c.ix.Next()
  {
    if c.cur.Some? && c.cur.value.pos.Advance(|bs[c.cur.value.block].value|).valid {
      var Loaded(block, pos) := c.cur.value;
      var es := bs[block].value;
      Uncons(es, pos.Next());
      Assoc([es[pos.Next()]], es[pos.Next() + 1..], Rest(bs, c.ix.Next()));
    } else {
      hide TCursor.Ahead;
      SkipKeepsAhead(bs, c);
      var c' := TCursor.Skip(bs, c.ix);
      if c'.ix.valid {
        AdvanceTakesHead(bs, c');
      }
    }
  }

  /** What repeated `next` calls yield until the first `None`, and the state they leave. */
  function Traverse(bs: Blocks, c: TCursor): (seq<Entry>, TCursor)
    requires c.Fits(bs)
    decreases |c.Ahead(bs)|
  {
    AdvanceTakesHead(bs, c);
    var c' := c.Advance(bs);
    if c'.Valid() then
      var (out, end) := Traverse(bs, c');
      ([c'.Current(bs).value] + out, end)
    else ([], c')
  }

  /** From any state, a traversal yields exactly the entries ahead and leaves the iterator reset. */
  lemma {:induction false} TraverseYieldsAhead(bs: Blocks, c: TCursor)
    requires c.Fits(bs)
    ensures Traverse(bs, c) == (c.Ahead(bs), EndOfTable(bs))
    decreases |c.Ahead(bs)|
  {
    AdvanceTakesHead(bs, c);
    if c.Advance(bs).Valid() {
      TraverseYieldsAhead(bs, c.Advance(bs));
    }
  }

  /** From a new or reset iterator: the entries of the readable blocks, in index order. */
  lemma TraverseFromStart(bs: Blocks, c: TCursor)
    requires c.Fits(bs) && c.cur == None
    ensures Traverse(bs, c) == (All(bs), EndOfTable(bs))
  {
    TraverseYieldsAhead(bs, c);
    UptoAndRest(bs, 0);
    NothingBefore(bs);
    PrependNothing(Rest(bs, 0));
  }

  // ---------- runs ----------

  /** The iterator offers no `seek_to_last`. */
  function Step(bs: Blocks, index: seq<Entry>, c: TCursor, op: Op): (c': TCursor)
    requires c.Fits(bs) && NoEmptyBlock(bs) && |index| == |bs| && op != DoSeekToLast
    ensures c'.Fits(bs)
  {
    match op
    case DoAdvance => c.Advance(bs)
    case DoPrev => c.Prev(bs)
    case DoReset => c.Reset()
    case DoSeek(to) => c.Seek(bs, index, to)
  }

  function After(bs: Blocks, index: seq<Entry>, c: TCursor, ops: seq<Op>): (c': TCursor)
    requires c.Fits(bs) && NoEmptyBlock(bs) && |index| == |bs| && DoSeekToLast !in ops
    ensures c'.Fits(bs)
  {
    if ops == [] then c
    else Step(bs, index, After(bs, index, c, ops[..|ops| - 1]), ops[|ops| - 1])
  }

  /** What a client reads with `current` after each operation of a run. */
  function Observe(bs: Blocks, index: seq<Entry>, c: TCursor, ops: seq<Op>): seq<Option<Entry>>
    requires c.Fits(bs) && NoEmptyBlock(bs) && |index| == |bs| && DoSeekToLast !in ops
  {
    if ops == [] then []
    else Observe(bs, index, c, ops[..|ops| - 1]) + [After(bs, index, c, ops).Current(bs)]
  }

  // ---------- positions ----------

  // Entry `m` of block `k` in the whole table.
  lemma PlaceInTable(bs: Blocks, k: nat, es: seq<Entry>, m: nat)
    requires k < |bs| && bs[k] == Some(es) && m < |es|
    ensures var p := |Upto(bs, k)| + m;
            p < |All(bs)| && All(bs)[p] == es[m] && All(bs)[p + 1..] == es[m + 1..] + Rest(bs, k + 1)
  {
    assert EntriesOf(bs[k]) == es;
    hide Upto, All, Rest, EntriesOf;
    UptoAndRest(bs, k + 1);
    UptoNext(bs, k);
    InMiddle(Upto(bs, k), es, Rest(bs, k + 1), m);
  }

  /** The ordinal names the current entry, and the entries ahead are those behind it. */
  lemma OrdinalIsPosition(bs: Blocks, c: TCursor)
    requires c.OnEntry(bs)
    ensures var p := c.Ordinal(bs);
            p < |All(bs)| && c.Current(bs) == Some(All(bs)[p]) && c.Ahead(bs) == All(bs)[p + 1..]
  {
    hide Upto, All, Rest;
    PlaceInTable(bs, c.ix.last, bs[c.ix.last].value, c.cur.value.pos.last);
  }

  /** Forwards: the next ordinal, until there is none. */
  lemma AdvanceMovesOn(bs: Blocks, c: TCursor)
    requires c.OnEntry(bs)
    ensures var p, c' := c.Ordinal(bs), c.Advance(bs);
            if p + 1 < |All(bs)| then c'.OnEntry(bs) && c'.Ordinal(bs) == p + 1 else c' == EndOfTable(bs)
  {
    hide All;
    var c' := c.Advance(bs);
    OrdinalIsPosition(bs, c);
    AdvanceTakesHead(bs, c);
    if c'.Valid() {
      OrdinalIsPosition(bs, c');
    }
  }

  /**
   Backwards: the ordinal before, also across blocks, and an advance undoes the step. Where forward
   steps skip a block that cannot be read, backward steps end: the iterator is reset.
   */
  lemma PrevMovesBack(bs: Blocks, c: TCursor)
    requires NoEmptyBlock(bs) && c.OnEntry(bs)
    ensures var c' := c.Prev(bs);
            && (c'.Valid() <==> c.cur.value.pos.last > 0 || (c.ix.last > 0 && bs[c.ix.last - 1].Some?))
            && (c'.Valid() ==>
                  c'.OnEntry(bs) && c'.Ordinal(bs) == c.Ordinal(bs) - 1 && c'.Advance(bs) == c)
            && (!c'.Valid() && c.ix.last > 0 ==> c' == TCursor(Cursor(c.ix.last - 1, false), None))
  {
    NothingBefore(bs);
    hide Upto;
    if c.ix.last > 0 {
      UptoNext(bs, c.ix.last - 1);
    }
  }

  // Where an advance to another block ends up.
  lemma {:induction false} AdvanceEnters(bs: Blocks, c: TCursor)
    requires NoEmptyBlock(bs) && c.Loose(bs)
    requires c.cur.Some? ==> !c.cur.value.pos.Advance(|bs[c.cur.value.block].value|).valid
    ensures var c' := c.Advance(bs);
            c'.Valid() ==> c'.OnEntry(bs) && c'.ix.last >= c.ix.Next() && c'.cur.value.pos.last == 0
                           && (forall i :: c.ix.Next() <= i < c'.ix.last ==> bs[i] == None)
    decreases |bs| - c.ix.Next()
  {
    var skipped := TCursor.Skip(bs, c.ix);
    if skipped.ix.valid && skipped.cur == None {
      AdvanceEnters(bs, skipped);
    }
  }

  /** Forwards and back again, unless the advance has skipped a block. */
  lemma PrevUndoesAdvanceInTable(bs: Blocks, c: TCursor)
    requires NoEmptyBlock(bs) && c.OnEntry(bs) && c.Advance(bs).Valid()
    ensures c.Advance(bs).Prev(bs) == c <==> c.Advance(bs).ix.last <= c.ix.last + 1
    ensures c.Advance(bs).Prev(bs) != c ==> !c.Advance(bs).Prev(bs).Valid()
  {
    if !c.cur.value.pos.Advance(|bs[c.cur.value.block].value|).valid {
      AdvanceEnters(bs, c);
    }
  }

  /** Steps of a walk: `true` is an advance, `false` a `prev`. */
  function Walk(bs: Blocks, c: TCursor, steps: seq<bool>): (c': TCursor)
    requires c.Fits(bs) && NoEmptyBlock(bs)
    ensures c'.Fits(bs)
  {
    if steps == [] then c
    else
      var at := Walk(bs, c, steps[..|steps| - 1]);
      if steps[|steps| - 1] then at.Advance(bs) else at.Prev(bs)
  }

  function Displacement(steps: seq<bool>): int {
    if steps == [] then 0
    else Displacement(steps[..|steps| - 1]) + if steps[|steps| - 1] then 1 else -1
  }

  /** No step of the walk returns `false`. */
  ghost predicate NoStepFails(bs: Blocks, c: TCursor, steps: seq<bool>)
    requires c.Fits(bs) && NoEmptyBlock(bs)
  {
    forall i :: 0 <= i <= |steps| ==> Walk(bs, c, steps[..i]).Valid()
  }

  lemma ShorterWalk(bs: Blocks, c: TCursor, steps: seq<bool>)
    requires c.Fits(bs) && NoEmptyBlock(bs) && steps != []
    ensures var n := |steps| - 1;
            NoStepFails(bs, c, steps) <==> NoStepFails(bs, c, steps[..n]) && Walk(bs, c, steps).Valid()
  {
    hide Walk, NoEmptyBlock, TCursor.Valid;
    var n := |steps| - 1;
    assert steps[..n + 1] == steps;
    assert forall i :: 0 <= i <= n ==> steps[..n][..i] == steps[..i];
    if NoStepFails(bs, c, steps) {
      assert forall i :: 0 <= i <= n ==> Walk(bs, c, steps[..i]).Valid();
    }
    if NoStepFails(bs, c, steps[..n]) {
      assert forall i :: 0 <= i <= n ==> Walk(bs, c, steps[..n][..i]).Valid();
    }
  }

  /** However a walk goes back and forth, while no step fails it stands on the entry the steps add up to. */
  lemma {:induction false} WalkAddsUp(bs: Blocks, c: TCursor, steps: seq<bool>)
    requires NoEmptyBlock(bs) && c.OnEntry(bs) && NoStepFails(bs, c, steps)
    ensures var c' := Walk(bs, c, steps);
            && c'.OnEntry(bs)
            && c'.Ordinal(bs) == c.Ordinal(bs) + Displacement(steps) < |All(bs)|
            && c'.Current(bs) == Some(All(bs)[c'.Ordinal(bs)])
    decreases |steps|
  {
    hide All, NoStepFails, NoEmptyBlock, Upto, Rest;
    if steps == [] {
      OrdinalIsPosition(bs, c);
      return;
    }
    var n := |steps| - 1;
    ShorterWalk(bs, c, steps);
    WalkAddsUp(bs, c, steps[..n]);
    var at := Walk(bs, c, steps[..n]);
    AdvanceMovesOn(bs, at);
    PrevMovesBack(bs, at);
    OrdinalIsPosition(bs, Walk(bs, c, steps));
  }

  ghost predicate AllReadable(bs: Blocks) {
    forall i :: 0 <= i < |bs| ==> bs[i].Some? && bs[i].value != []
  }

  predicate EndsInside(p: nat, n: nat, steps: seq<bool>) {
    0 <= p + Displacement(steps) < n
  }

  /** No prefix of the walk leaves the entries `0..n`. */
  ghost predicate StaysInside(p: nat, n: nat, steps: seq<bool>) {
    forall i :: 0 <= i <= |steps| ==> EndsInside(p, n, steps[..i])
  }

  lemma ShorterStay(p: nat, n: nat, steps: seq<bool>)
    requires steps != []
    ensures StaysInside(p, n, steps) <==> StaysInside(p, n, steps[..|steps| - 1]) && EndsInside(p, n, steps)
  {
    hide EndsInside;
    var m := |steps| - 1;
    assert steps[..m + 1] == steps;
    assert forall i :: 0 <= i <= m ==> steps[..m][..i] == steps[..i];
    if StaysInside(p, n, steps) {
      assert forall i :: 0 <= i <= m ==> EndsInside(p, n, steps[..i]);
    }
    if StaysInside(p, n, steps[..m]) {
      assert forall i :: 0 <= i <= m ==> EndsInside(p, n, steps[..m][..i]);
    }
  }

  // With every block readable `prev` fails at the very first entry only.
  lemma PrevFailsAtZero(bs: Blocks, c: TCursor)
    requires AllReadable(bs) && c.OnEntry(bs)
    ensures NoEmptyBlock(bs) && (c.Prev(bs).Valid() <==> c.Ordinal(bs) > 0)
  {
    NothingBefore(bs);
    hide Upto;
    if c.ix.last > 0 {
      UptoNext(bs, c.ix.last - 1);
    }
  }

  /** When every block can be read, the steps that fail are exactly those that leave the table. */
  lemma {:induction false} WalkFailsOutside(bs: Blocks, c: TCursor, steps: seq<bool>)
    requires AllReadable(bs) && NoEmptyBlock(bs) && c.OnEntry(bs)
    ensures NoStepFails(bs, c, steps) <==> StaysInside(c.Ordinal(bs), |All(bs)|, steps)
    decreases |steps|
  {
    hide All, NoStepFails, NoEmptyBlock, AllReadable, Upto, Rest, StaysInside;
    if steps == [] {
      EmptyWalk(bs, c);
      return;
    }
    var n := |steps| - 1;
    ShorterWalk(bs, c, steps);
    ShorterStay(c.Ordinal(bs), |All(bs)|, steps);
    WalkFailsOutside(bs, c, steps[..n]);
    if NoStepFails(bs, c, steps[..n]) {
      WalkAddsUp(bs, c, steps[..n]);
      var at := Walk(bs, c, steps[..n]);
      AdvanceMovesOn(bs, at);
      PrevFailsAtZero(bs, at);
    }
  }

  lemma EmptyWalk(bs: Blocks, c: TCursor)
    requires NoEmptyBlock(bs) && c.OnEntry(bs)
    ensures NoStepFails(bs, c, []) && StaysInside(c.Ordinal(bs), |All(bs)|, [])
  {
    OrdinalIsPosition(bs, c);
    hide All, Upto, Rest, NoEmptyBlock;
    var none: seq<bool> := [];
    assert none[..0] == none;
  }

  /** A `prev` fails exactly in front of the table or of a block that cannot be read. */
  lemma PrevFailsExactly(bs: Blocks, c: TCursor)
    requires NoEmptyBlock(bs) && c.Fits(bs)
    ensures !c.Prev(bs).Valid()
       <==> (c.cur.Some? ==> c.cur.value.pos.last == 0) && (c.ix.last == 0 || bs[c.ix.last - 1] == None)
  {
  }

  /**
   `prev` of the first entry fails and rewinds the index, but the first block stays loaded: a following
   traversal yields that block and then the whole table. Exactly when nothing is loaded it yields the
   table once.
   */
  lemma PrevBeforeFirst(bs: Blocks, c: TCursor)
    requires NoEmptyBlock(bs) && c.Fits(bs)
    requires c.ix.last == 0 && (c.cur.Some? ==> c.cur.value.pos.last == 0)
    ensures var c' := c.Prev(bs);
            && !c'.Valid()
            && Traverse(bs, c').0 == (if c.cur.Some? then bs[0].value else []) + All(bs)
            && (Traverse(bs, c').0 == All(bs) <==> c.cur == None)
  {
    TraverseYieldsAhead(bs, c.Prev(bs));
    UptoAndRest(bs, 0);
    NothingBefore(bs);
    PrependNothing(Rest(bs, 0));
  }

  /** That happens to a new iterator moved forward and back: the first block comes twice. */
  lemma ForwardAndBackRepeats(bs: Blocks)
    requires NoEmptyBlock(bs) && bs != [] && bs[0].Some?
    ensures var c := START_OF_TABLE.Advance(bs);
            && c.OnEntry(bs) && c.Ordinal(bs) == 0
            && Traverse(bs, c.Prev(bs)).0 == bs[0].value + All(bs) != All(bs)
  {
    hide All, Traverse, Rest;
    var skipped := TCursor.Skip(bs, FRESH);
    assert skipped.cur == Some(Loaded(0, FRESH));
    var c := START_OF_TABLE.Advance(bs);
    assert c == skipped.Advance(bs) == TCursor(skipped.ix, Some(Loaded(0, Cursor(0, true))));
    NothingBefore(bs);
    PrevBeforeFirst(bs, c);
  }

  /**
   `prev` of an iterator that has run out of entries goes to the end of the block before the last one,
   if that can be read: the last block is passed over.
   */
  lemma PrevAfterTraversal(bs: Blocks)
    requires NoEmptyBlock(bs) && |bs| >= 2
    ensures var c := EndOfTable(bs).Prev(bs);
            if bs[|bs| - 2].Some? then
              && c.OnEntry(bs)
              && c.Ordinal(bs) == |All(bs)| - |EntriesOf(bs[|bs| - 1])| - 1
            else !c.Valid()
  {
    var n := |bs|;
    UptoNext(bs, n - 1);
    UptoNext(bs, n - 2);
    assert bs[..n] == bs;
    hide Readable, Flatten;
  }
}

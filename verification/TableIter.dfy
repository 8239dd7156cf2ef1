/**
 `TableIterator`: the two-level iterator over a table, proved to move the abstract cursor `Pos()` as
 `TableCursors.TCursor` says.
 */
module TableIteration {
  import opened Bytes
  import opened Codec
  import opened BlockFormat
  import opened BlockIteration
  import opened Cursors
  import opened Seqs
  import opened BlockCaching
  import opened Lru
  import opened Caching
  import opened TableCursors
  import opened TableFormat
  import opened TableReading

  function EntriesIn(b: Option<Layout>): Option<seq<Entry>> {
    if b.Some? then Some(b.value.es) else None
  }

  /** What can be read of the blocks of a table. */
  ghost function BlocksOf(v: View): (r: Blocks)
    ensures |r| == |v.blocks|
    ensures forall i :: 0 <= i < |r| ==> r[i] == EntriesIn(v.blocks[i])
  {
    seq(|v.blocks|, i requires 0 <= i < |v.blocks| => EntriesIn(v.blocks[i]))
  }

  predicate HasEntry(b: Option<Layout>) {
    b.Some? ==> |b.value.es| > 0
  }

  class TableIterator {
    const table: Table
    const indexBlock: BlockIter
    var currentBlock: BlockIter?
    var currentBlockOff: nat

    ghost const v: View
    /** The ordinal of the loaded block. */
    ghost var loaded: nat

    ghost predicate TableOk()
      reads table.cache, table.cache.list, table.cache.list.head, table.cache.list.nodes
    {
      table.Valid(v)
    }

    ghost predicate IndexOk()
      reads indexBlock
    {
      indexBlock.l == v.ix && indexBlock.Valid()
    }

    ghost predicate BlockOk()
      reads this, currentBlock
    {
      currentBlock != null ==>
        && currentBlock != indexBlock
        && loaded < |v.blocks| == |v.src.handles|
        && v.blocks[loaded] == Some(currentBlock.l)
        && currentBlockOff == v.src.handles[loaded].offset
        && currentBlock.Valid()
    }

    ghost function Pos(): TCursor
      reads this, indexBlock, currentBlock
    {
      TCursor(indexBlock.Pos(), if currentBlock == null then None else Some(Loaded(loaded, currentBlock.Pos())))
    }

    // In order, except that no block need be loaded while the index is on an entry.
    ghost predicate Wf()
      reads this, indexBlock, currentBlock
      reads table.cache, table.cache.list, table.cache.list.head, table.cache.list.nodes
    {
      TableOk() && IndexOk() && BlockOk() && Pos().Loose(BlocksOf(v))
    }

    ghost predicate Valid()
      reads this, indexBlock, currentBlock
      reads table.cache, table.cache.list, table.cache.list.head, table.cache.list.nodes
    {
      Wf() && Pos().Fits(BlocksOf(v))
    }

    ghost function Own(): set<object>
      reads this
    {
      {this, indexBlock} + if currentBlock == null then {} else {currentBlock}
    }

    /** `Table::iter`. */
    constructor (table: Table, ghost v: View)
      requires table.Valid(v)
      ensures Valid() && this.table == table && this.v == v && Pos() == START_OF_TABLE
      ensures fresh(Own())
    {
      this.table := table;
      this.v := v;
      this.indexBlock := new BlockIter(table.parts.indexBlock, v.ix);
      this.currentBlock := null;
      this.currentBlockOff := 0;
      this.loaded := 0;
    }

    // Reads the block that index entry `i` points to.
    method ReadAtEntry(handle: Bytes, ghost i: nat) returns (location: BlockHandle, block: Result<Bytes>)
      requires TableOk() && i < |v.blocks| == |v.ix.es| && handle == v.ix.es[i].val
      modifies table.cache.Repr()
      ensures TableOk() && forall o :: o in table.cache.Repr() ==> o in old(table.cache.Repr()) || fresh(o)
      ensures ReadsOnly(old(table.cache.slots), table.cache.slots, v.src) && table.cache.id == old(table.cache.id)
      ensures |v.src.handles| == |v.blocks| && location == v.src.handles[i]
      ensures block == v.src.Direct(i) && ShowsBlock(block, v.blocks[i])
    {
      assert IndexEntryOk(v.ix.es[i], v.src.handles[i]) && ShowsBlock(v.src.Direct(i), v.blocks[i]);
      hide TableIterator.IndexOk, TableIterator.BlockOk, TableIterator.Wf, TableIterator.Valid, Table.Valid,
           Layout.Of, BlockIter.Valid, ReadsOnly;
      location := DecodeHandle(handle).value.0;
      block := table.ReadBlock(location, v, i);
    }

    /** `load_block`: `handle` is the value of index entry `i`. */
    method LoadBlock(handle: Bytes, ghost i: nat) returns (r: Result<()>)
      requires TableOk() && IndexOk() && BlockOk() && i < |v.blocks| == |v.ix.es| && handle == v.ix.es[i].val
      modifies this`currentBlock, this`currentBlockOff, this`loaded, table.cache.Repr()
      ensures TableOk() && forall o :: o in table.cache.Repr() ==> o in old(table.cache.Repr()) || fresh(o)
      ensures ReadsOnly(old(table.cache.slots), table.cache.slots, v.src) && table.cache.id == old(table.cache.id)
      ensures IndexOk() && BlockOk() && indexBlock.Pos() == old(indexBlock.Pos())
      ensures r == (if v.blocks[i].Some? then Ok(()) else Err(v.src.Direct(i).code))
      ensures if r.Ok? then currentBlock != null && fresh(currentBlock) && loaded == i && currentBlock.Pos() == FRESH
              else currentBlock == old(currentBlock) && currentBlockOff == old(currentBlockOff)
                   && loaded == old(loaded)
    {
      hide TableIterator.TableOk, Layout.Of, Sorted, ReadsOnly;
      var newBlockHandle, block := ReadAtEntry(handle, i);
      if block.Err? {
        return Err(block.code);
      }
      currentBlock := new BlockIter(block.value, v.blocks[i].value);
      currentBlockOff := newBlockHandle.offset;
      loaded := i;
      r := Ok(());
    }

    // `index_block.next()`: moves on, and returns the value of the entry.
    method NextHandle() returns (r: Option<Bytes>)
      requires TableOk() && IndexOk() && BlockOk()
      modifies indexBlock
      ensures TableOk() && BlockOk() && table.cache.Repr() == old(table.cache.Repr())
      ensures table.cache.slots == old(table.cache.slots) && table.cache.id == old(table.cache.id)
      ensures IndexOk() && old(indexBlock.Pos()).Fits(|v.ix.es|)
      ensures indexBlock.Pos() == old(indexBlock.Pos()).Advance(|v.ix.es|)
      ensures r == if indexBlock.Pos().valid then Some(v.ix.es[indexBlock.Pos().last].val) else None
    {
      indexBlock.NextIsBehind();
      assert currentBlock != indexBlock;
      hide TableIterator.TableOk, TableIterator.BlockOk, Table.Valid, Layout.Of, BlockIter.Valid, ReadsOnly;
      var pair := indexBlock.Next();
      r := if pair.Some? then Some(pair.value.val) else None;
    }

    // Loads the block the index has come to.
    method EnterBlock(handle: Bytes) returns (r: Result<()>)
      requires TableOk() && IndexOk() && BlockOk() && currentBlock == null && indexBlock.Pos().valid
      requires indexBlock.Pos().Fits(|v.blocks|) && |v.ix.es| == |v.blocks|
      requires handle == v.ix.es[indexBlock.Pos().last].val
      modifies this`currentBlock, this`currentBlockOff, this`loaded, table.cache.Repr()
      ensures Wf() && (currentBlock != null ==> fresh(currentBlock))
      ensures forall o :: o in table.cache.Repr() ==> o in old(table.cache.Repr()) || fresh(o)
      ensures ReadsOnly(old(table.cache.slots), table.cache.slots, v.src) && table.cache.id == old(table.cache.id)
      ensures var ix := old(indexBlock.Pos());
              && r.Ok? == v.blocks[ix.last].Some?
              && Pos() == TCursor(ix, if r.Ok? then Some(Loaded(ix.last, FRESH)) else None)
    {
      hide TableIterator.TableOk, TableIterator.IndexOk, TableIterator.BlockOk, TableIterator.Valid, Table.Valid,
           Layout.Of, BlockIter.Valid, ReadsOnly;
      ghost var i := indexBlock.Pos().last;
      r := LoadBlock(handle, i);
      if r.Ok? {
        FreshFits(|v.blocks[i].value.es|);
      }
    }

    /** `skip_to_next_entry`: `Err` when the next block cannot be read, `Ok(false)` when there is none. */
    method SkipToNextEntry() returns (r: Result<bool>)
      requires TableOk() && IndexOk() && currentBlock == null
      modifies this`currentBlock, this`currentBlockOff, this`loaded, indexBlock, table.cache.Repr()
      ensures Wf() && (currentBlock != null ==> fresh(currentBlock))
      ensures forall o :: o in table.cache.Repr() ==> o in old(table.cache.Repr()) || fresh(o)
      ensures ReadsOnly(old(table.cache.slots), table.cache.slots, v.src) && table.cache.id == old(table.cache.id)
      ensures old(indexBlock.Pos()).Fits(|v.blocks|) && Pos() == TCursor.Skip(BlocksOf(v), old(indexBlock.Pos()))
      ensures (r.Ok? && r.value <==> Pos().cur.Some?) && (r == Ok(false) <==> !Pos().ix.valid)
    {
      ViewLengths();
      assert BlockOk();
      hide TableIterator.TableOk, TableIterator.IndexOk, TableIterator.BlockOk, TableIterator.Valid, Table.Valid,
           Layout.Of, BlockIter.Valid, ReadsOnly;
      NoReads(table.cache.slots, v.src);
      var handle := NextHandle();
      if handle.None? {
        r := Ok(false);
      } else {
        var done := EnterBlock(handle.value);
        r := if done.Ok? then Ok(true) else Err(done.code);
      }
    }

    // Advances the loaded block.
    method AdvanceBlock() returns (more: bool)
      requires Wf() && currentBlock != null
      modifies currentBlock
      ensures Wf()
      ensures var was := old(Pos().cur.value); var n := |BlocksOf(v)[was.block].value|;
              && Pos() == TCursor(old(Pos().ix), Some(Loaded(was.block, was.pos.Advance(n))))
              && more == was.pos.Advance(n).valid
    {
      currentBlock.NextIsBehind();
      assert TableOk() && IndexOk() && BlockOk();
      hide TableIterator.TableOk, TableIterator.IndexOk, TableIterator.Valid, Table.Valid, Layout.Of,
           BlockIter.Valid, ReadsOnly;
      more := currentBlock.Advance();
      currentBlock.NextIsBehind();
    }

    // `index_block.reset()`.
    method ResetIndex()
      requires TableOk() && IndexOk() && BlockOk()
      modifies indexBlock
      ensures TableOk() && IndexOk() && BlockOk() && table.cache.Repr() == old(table.cache.Repr())
      ensures table.cache.slots == old(table.cache.slots) && table.cache.id == old(table.cache.id)
      ensures indexBlock.Pos() == old(indexBlock.Pos()).Reset() && indexBlock.Pos().Fits(|v.ix.es|)
    {
      indexBlock.NextIsBehind();
      hide TableIterator.TableOk, TableIterator.Wf, TableIterator.Valid, Table.Valid, Layout.Of, BlockIter.Valid,
           ReadsOnly;
      assert TableOk() && IndexOk() && BlockOk();
      indexBlock.Reset();
      indexBlock.NextIsBehind();
    }

    method DropBlock()
      requires TableOk() && IndexOk()
      modifies this`currentBlock
      ensures TableOk() && IndexOk() && BlockOk() && table.cache.Repr() == old(table.cache.Repr())
      ensures table.cache.slots == old(table.cache.slots) && table.cache.id == old(table.cache.id)
      ensures currentBlock == null && indexBlock.Pos() == old(indexBlock.Pos())
    {
      assert TableOk() && IndexOk();
      hide TableIterator.TableOk, TableIterator.IndexOk, TableIterator.Wf, TableIterator.Valid, Table.Valid,
           Layout.Of, BlockIter.Valid, ReadsOnly;
      currentBlock := null;
    }

    method Reset()
      requires TableOk() && IndexOk() && BlockOk()
      modifies this`currentBlock, indexBlock
      ensures Valid() && Pos() == old(Pos()).Reset()
      ensures currentBlock == null && table.cache.Repr() == old(table.cache.Repr())
      ensures table.cache.slots == old(table.cache.slots) && table.cache.id == old(table.cache.id)
    {
      ViewLengths();
      hide TableIterator.TableOk, TableIterator.IndexOk, TableIterator.BlockOk, Table.Valid, Layout.Of,
           BlockIter.Valid, ReadsOnly;
      ResetIndex();
      DropBlock();
    }

    // Leaves the loaded block for the first entry behind it.
    method AdvanceIndex() returns (r: bool)
      requires Wf() && currentBlock == null
      modifies Own(), table.cache.Repr()
      ensures Valid()
      ensures forall o :: o in Own() ==> o in old(Own()) || fresh(o)
      ensures forall o :: o in table.cache.Repr() ==> o in old(table.cache.Repr()) || fresh(o)
      ensures ReadsOnly(old(table.cache.slots), table.cache.slots, v.src) && table.cache.id == old(table.cache.id)
      ensures Pos() == old(Pos()).Advance(BlocksOf(v)) && r == Pos().Valid()
      decreases |v.blocks| - indexBlock.Pos().Next(), 0
    {
      hide TableIterator.TableOk, TableIterator.IndexOk, TableIterator.BlockOk, Table.Valid, Layout.Of,
           BlockIter.Valid, ReadsOnly;
      ghost var slots := table.cache.slots;
      var skipped := SkipToNextEntry();
      if skipped == Ok(false) {
        Reset();
        r := false;
      } else {
        // a block to go on with, or one that cannot be read: then the next one is tried
        ghost var loadedSlots := table.cache.slots;
        r := Advance();
        ReadsCompose(slots, loadedSlots, table.cache.slots, v.src);
      }
    }

    method Advance() returns (r: bool)
      requires Wf()
      modifies Own(), table.cache.Repr()
      ensures Valid()
      ensures forall o :: o in Own() ==> o in old(Own()) || fresh(o)
      ensures forall o :: o in table.cache.Repr() ==> o in old(table.cache.Repr()) || fresh(o)
      ensures ReadsOnly(old(table.cache.slots), table.cache.slots, v.src) && table.cache.id == old(table.cache.id)
      ensures Pos() == old(Pos()).Advance(BlocksOf(v)) && r == Pos().Valid()
      decreases |v.blocks| - indexBlock.Pos().Next(), 1
    {
      hide TableIterator.TableOk, TableIterator.IndexOk, Table.Valid, Layout.Of, BlockIter.Valid, ReadsOnly;
      if currentBlock == null {
        r := AdvanceIndex();
        return;
      }
      NoReads(table.cache.slots, v.src);
      var more := AdvanceBlock();
      if more {
        return true;
      }
      currentBlock := null;
      r := AdvanceIndex();
    }

    // `index_block.seek(to)`, and the value of the entry found.
    method SeekHandle(to: Bytes) returns (r: Option<Entry>)
      requires TableOk() && IndexOk() && BlockOk()
      modifies indexBlock
      ensures TableOk() && BlockOk() && table.cache.Repr() == old(table.cache.Repr())
      ensures table.cache.slots == old(table.cache.slots) && table.cache.id == old(table.cache.id)
      ensures IndexOk() && indexBlock.Pos() == old(indexBlock.Pos()).Seek(v.ix.es, to)
      ensures indexBlock.Pos().Fits(|v.ix.es|) && r.Some? == indexBlock.Pos().valid
      ensures r.Some? ==> indexBlock.Pos().last < |v.ix.es| && r.value == v.ix.es[indexBlock.Pos().last]
    {
      ViewLengths();
      assert currentBlock != indexBlock;
      hide TableIterator.TableOk, TableIterator.BlockOk, TableIterator.Wf, TableIterator.Valid, Table.Valid,
           Layout.Of, BlockIter.Valid, ReadsOnly;
      indexBlock.Seek(to);
      r := indexBlock.Current();
    }

    lemma BlockIsSorted(i: nat)
      requires TableOk() && i < |v.blocks| && v.blocks[i].Some?
      ensures Sorted(v.blocks[i].value.es)
    {
      assert ShowsBlock(v.src.Direct(i), v.blocks[i]);
    }

    lemma ViewLengths()
      requires TableOk()
      ensures |v.ix.es| == |v.blocks| == |v.src.handles| && Sorted(v.ix.es)
    {
    }

    // Seeks in the block that was just loaded.
    method SeekBlock(to: Bytes)
      requires Wf() && currentBlock != null
      modifies currentBlock
      ensures Wf()
      ensures var was := old(Pos().cur.value);
              Pos() == TCursor(old(Pos().ix), Some(Loaded(was.block, was.pos.Seek(BlocksOf(v)[was.block].value, to))))
    {
      BlockIsSorted(loaded);
      assert TableOk() && IndexOk() && BlockOk();
      hide TableIterator.TableOk, TableIterator.IndexOk, TableIterator.Valid, Table.Valid, Layout.Of,
           BlockIter.Valid, ReadsOnly;
      currentBlock.Seek(to);
      currentBlock.NextIsBehind();
      assert IndexOk() && BlockOk();
    }

    // Whether there was a block to seek in, and where that left its iterator.
    ghost predicate Sought(ok: bool, to: Bytes)
      reads this, indexBlock, currentBlock
      reads table.cache, table.cache.list, table.cache.list.head, table.cache.list.nodes
    {
      var ix := indexBlock.Pos();
      && ix.Fits(|v.blocks|)
      && ok == (ix.valid && v.blocks[ix.last].Some?)
      && (ok ==> Wf() && Pos().cur == Some(Loaded(ix.last, FRESH.Seek(v.blocks[ix.last].value.es, to))))
    }

    lemma NothingToSeek(to: Bytes)
      requires indexBlock.Pos().Fits(|v.blocks|) && !indexBlock.Pos().valid
      ensures Sought(false, to)
    {
      hide TableIterator.Wf;
    }

    // Loads the block the index is on and seeks in it.
    method LoadAndSeek(handle: Bytes, to: Bytes) returns (ok: bool)
      requires TableOk() && IndexOk() && BlockOk() && indexBlock.Pos().valid
      requires indexBlock.Pos().Fits(|v.blocks|) && |v.ix.es| == |v.blocks|
      requires handle == v.ix.es[indexBlock.Pos().last].val
      modifies this`currentBlock, this`currentBlockOff, this`loaded, table.cache.Repr()
      ensures TableOk() && IndexOk() && BlockOk()
      ensures forall o :: o in table.cache.Repr() ==> o in old(table.cache.Repr()) || fresh(o)
      ensures ReadsOnly(old(table.cache.slots), table.cache.slots, v.src) && table.cache.id == old(table.cache.id)
      ensures indexBlock.Pos() == old(indexBlock.Pos())
      ensures currentBlock == old(currentBlock) || fresh(currentBlock)
      ensures Sought(ok, to)
    {
      hide TableIterator.TableOk, TableIterator.IndexOk, TableIterator.BlockOk, TableIterator.Valid, Table.Valid,
           Layout.Of, BlockIter.Valid, ReadsOnly;
      ghost var i := indexBlock.Pos().last;
      var done := LoadBlock(handle, i);
      ok := done.Ok?;
      if ok {
        FreshFits(|v.blocks[i].value.es|);
        assert IndexOk() && BlockOk() && TableOk();
        SeekBlock(to);
      }
    }

    // Seeks in the index, and in the block found if it can be read.
    method TrySeek(to: Bytes) returns (ok: bool)
      requires Valid()
      modifies Own(), table.cache.Repr()
      ensures TableOk() && IndexOk() && BlockOk()
      ensures currentBlock == old(currentBlock) || fresh(currentBlock)
      ensures forall o :: o in table.cache.Repr() ==> o in old(table.cache.Repr()) || fresh(o)
      ensures ReadsOnly(old(table.cache.slots), table.cache.slots, v.src) && table.cache.id == old(table.cache.id)
      ensures |v.ix.es| == |v.blocks| && indexBlock.Pos() == old(indexBlock.Pos()).Seek(v.ix.es, to)
      ensures Sought(ok, to)
    {
      ViewLengths();
      hide TableIterator.TableOk, TableIterator.IndexOk, TableIterator.BlockOk, TableIterator.Valid, Table.Valid,
           Layout.Of, BlockIter.Valid, ReadsOnly;
      NoReads(table.cache.slots, v.src);
      ghost var was := indexBlock.Pos();
      var found := SeekHandle(to);
      ok := false;
      if found.None? {
        NothingToSeek(to);
      } else {
        FoundIsNotBelow(was, indexBlock.Pos(), v.ix.es, to);
        if Cmp(to, found.value.key) != Greater {
          ok := LoadAndSeek(found.value.val, to);
        }
      }
    }

    /** Seeks in the index, then in the block found; past the last index key the iterator is reset. */
    method Seek(to: Bytes)
      requires Valid()
      modifies Own(), table.cache.Repr()
      ensures Valid()
      ensures forall o :: o in Own() ==> o in old(Own()) || fresh(o)
      ensures forall o :: o in table.cache.Repr() ==> o in old(table.cache.Repr()) || fresh(o)
      ensures ReadsOnly(old(table.cache.slots), table.cache.slots, v.src) && table.cache.id == old(table.cache.id)
      ensures |v.ix.es| == |v.blocks| && Pos() == old(Pos()).Seek(BlocksOf(v), v.ix.es, to)
    {
      hide TableIterator.TableOk, TableIterator.IndexOk, TableIterator.BlockOk, Table.Valid, Layout.Of,
           BlockIter.Valid, ReadsOnly;
      var ok := TrySeek(to);
      if ok {
        return;
      }
      Reset();
    }

    // Steps back in the loaded block.
    method PrevBlock() returns (moved: bool)
      requires Wf() && currentBlock != null
      modifies currentBlock
      ensures Wf() && table.cache.Repr() == old(table.cache.Repr())
      ensures table.cache.slots == old(table.cache.slots) && table.cache.id == old(table.cache.id)
      ensures var was := old(Pos().cur.value);
              && Pos() == TCursor(old(Pos().ix), Some(Loaded(was.block, was.pos.Prev())))
              && moved == (was.pos.last > 0)
    {
      assert TableOk() && IndexOk() && BlockOk();
      hide TableIterator.TableOk, TableIterator.IndexOk, TableIterator.Valid, Table.Valid, Layout.Of,
           BlockIter.Valid, ReadsOnly;
      moved := currentBlock.Prev();
      currentBlock.NextIsBehind();
      assert IndexOk() && BlockOk();
    }

    // `index_block.prev()`, and the value of the entry it moves to.
    method PrevHandle() returns (r: Option<Bytes>)
      requires TableOk() && IndexOk() && BlockOk()
      modifies indexBlock
      ensures TableOk() && BlockOk() && table.cache.Repr() == old(table.cache.Repr())
      ensures table.cache.slots == old(table.cache.slots) && table.cache.id == old(table.cache.id)
      ensures IndexOk() && indexBlock.Pos() == old(indexBlock.Pos()).Prev()
      ensures indexBlock.Pos().Fits(|v.ix.es|) && indexBlock.Pos().valid == (old(indexBlock.Pos()).last > 0) == r.Some?
      ensures r.Some? ==> indexBlock.Pos().last < |v.ix.es| && r.value == v.ix.es[indexBlock.Pos().last].val
    {
      assert currentBlock != indexBlock;
      hide TableIterator.TableOk, TableIterator.BlockOk, TableIterator.Wf, TableIterator.Valid, Table.Valid,
           Layout.Of, BlockIter.Valid, ReadsOnly;
      var moved := indexBlock.Prev();
      var pair := indexBlock.Current();
      r := if moved && pair.Some? then Some(pair.value.val) else None;
    }

    // Whether the block the index is on could be loaded, and that the iterator stands on its last entry then.
    ghost predicate AtLast(ok: bool)
      reads this, indexBlock, currentBlock
      reads table.cache, table.cache.list, table.cache.list.head, table.cache.list.nodes
    {
      var ix := indexBlock.Pos();
      && ix.Fits(|v.blocks|) && ix.valid
      && ok == v.blocks[ix.last].Some?
      && (ok ==>
            && Wf() && |v.blocks[ix.last].value.es| > 0
            && Pos().cur == Some(Loaded(ix.last, Cursor.SeekToLast(|v.blocks[ix.last].value.es|))))
    }

    method SeekBlockToLast()
      requires Wf() && currentBlock != null && HasEntry(v.blocks[loaded])
      modifies currentBlock
      ensures Wf() && table.cache.Repr() == old(table.cache.Repr())
      ensures table.cache.slots == old(table.cache.slots) && table.cache.id == old(table.cache.id)
      ensures var block := old(Pos().cur.value.block);
              Pos() == TCursor(old(Pos().ix), Some(Loaded(block, Cursor.SeekToLast(|v.blocks[block].value.es|))))
      ensures indexBlock.Pos() == old(indexBlock.Pos()) && TableOk() && IndexOk() && BlockOk()
    {
      currentBlock.NextIsBehind();
      assert TableOk() && IndexOk() && BlockOk();
      hide TableIterator.TableOk, TableIterator.IndexOk, TableIterator.Valid, Table.Valid, Layout.Of,
           BlockIter.Valid, ReadsOnly;
      currentBlock.SeekToLast();
      currentBlock.NextIsBehind();
      assert IndexOk() && BlockOk();
    }

    lemma BlockHasEntry(i: nat)
      requires NoEmptyBlock(BlocksOf(v)) && i < |v.blocks|
      ensures HasEntry(v.blocks[i])
    {
      assert BlocksOf(v)[i] != Some([]);
    }

    // Loads the block the index is on and goes to its last entry.
    method LoadAndSeekToLast(handle: Bytes) returns (ok: bool)
      requires TableOk() && IndexOk() && BlockOk() && indexBlock.Pos().valid
      requires indexBlock.Pos().Fits(|v.blocks|) && |v.ix.es| == |v.blocks|
      requires handle == v.ix.es[indexBlock.Pos().last].val
      requires HasEntry(v.blocks[indexBlock.Pos().last])
      modifies this`currentBlock, this`currentBlockOff, this`loaded, table.cache.Repr()
      ensures TableOk() && IndexOk() && BlockOk()
      ensures forall o :: o in table.cache.Repr() ==> o in old(table.cache.Repr()) || fresh(o)
      ensures ReadsOnly(old(table.cache.slots), table.cache.slots, v.src) && table.cache.id == old(table.cache.id)
      ensures indexBlock.Pos() == old(indexBlock.Pos())
      ensures currentBlock == old(currentBlock) || fresh(currentBlock)
      ensures AtLast(ok)
    {
      ghost var i := indexBlock.Pos().last;
      hide TableIterator.TableOk, TableIterator.IndexOk, TableIterator.BlockOk, TableIterator.Valid, Table.Valid,
           Layout.Of, BlockIter.Valid, ReadsOnly;
      var done := LoadBlock(handle, i);
      ok := done.Ok?;
      if ok {
        FreshFits(|v.blocks[i].value.es|);
        assert IndexOk() && BlockOk() && TableOk();
        SeekBlockToLast();
      }
    }

    // Goes to the last entry of the block the index is on, or resets if that cannot be loaded.
    method EnterFromBehind(handle: Bytes) returns (ok: bool)
      requires TableOk() && IndexOk() && BlockOk() && indexBlock.Pos().valid
      requires indexBlock.Pos().Fits(|v.blocks|) && |v.ix.es| == |v.blocks|
      requires handle == v.ix.es[indexBlock.Pos().last].val
      requires HasEntry(v.blocks[indexBlock.Pos().last])
      modifies this`currentBlock, this`currentBlockOff, this`loaded, indexBlock, table.cache.Repr()
      ensures Valid() && (currentBlock == null || currentBlock == old(currentBlock) || fresh(currentBlock))
      ensures forall o :: o in table.cache.Repr() ==> o in old(table.cache.Repr()) || fresh(o)
      ensures ReadsOnly(old(table.cache.slots), table.cache.slots, v.src) && table.cache.id == old(table.cache.id)
      ensures var ix := old(indexBlock.Pos());
              && ok == v.blocks[ix.last].Some?
              && (ok ==> |v.blocks[ix.last].value.es| > 0)
              && Pos() == if ok then TCursor(ix, Some(Loaded(ix.last, Cursor.SeekToLast(|v.blocks[ix.last].value.es|))))
                          else TCursor(ix.Reset(), None)
    {
      hide TableIterator.TableOk, TableIterator.IndexOk, TableIterator.BlockOk, Table.Valid, Layout.Of,
           BlockIter.Valid, ReadsOnly;
      ok := LoadAndSeekToLast(handle);
      if !ok {
        Reset();
      }
    }

    // There is no block before: only the index has been rewound.
    lemma NoBlockBefore(was: TCursor)
      requires TableOk() && IndexOk() && BlockOk() && NoEmptyBlock(BlocksOf(v)) && was.Fits(BlocksOf(v))
      requires was.ix.last == 0 && Pos() == TCursor(was.ix.Prev(), was.cur)
      ensures Valid() && Pos() == was.BackABlock(BlocksOf(v))
    {
      hide TableIterator.TableOk, TableIterator.IndexOk, TableIterator.BlockOk, NoEmptyBlock;
    }

    // Steps back in the index and goes to the end of the block before.
    method BackABlock() returns (r: bool)
      requires Valid() && NoEmptyBlock(BlocksOf(v))
      modifies Own(), table.cache.Repr()
      ensures Valid() && (currentBlock == null || currentBlock == old(currentBlock) || fresh(currentBlock))
      ensures forall o :: o in table.cache.Repr() ==> o in old(table.cache.Repr()) || fresh(o)
      ensures ReadsOnly(old(table.cache.slots), table.cache.slots, v.src) && table.cache.id == old(table.cache.id)
      ensures Pos() == old(Pos()).BackABlock(BlocksOf(v)) && r == (old(Pos()).ix.last > 0 && Pos().Valid())
    {
      ViewLengths();
      assert TableOk() && IndexOk() && BlockOk();
      ghost var was := Pos();
      hide TableIterator.TableOk, TableIterator.IndexOk, TableIterator.BlockOk, TableIterator.Wf, TableIterator.Valid,
           Table.Valid, Layout.Of, BlockIter.Valid, ReadsOnly, NoEmptyBlock, HasEntry, TCursor.BackABlock, TCursor.Fits,
           TCursor.Loose, Cursor.Prev, Cursor.Reset;
      NoReads(table.cache.slots, v.src);
      var handle := PrevHandle();
      if handle.None? {
        NoBlockBefore(was);
        return false;
      }
      PrevIsBefore(was.ix);
      BlockHasEntry(indexBlock.Pos().last);
      r := EnterFromBehind(handle.value);
      CameFromBehind(v, was, Pos(), r);
    }

    /** Steps back in the loaded block, or to the last entry of the block before. */
    method Prev() returns (r: bool)
      requires Valid() && NoEmptyBlock(BlocksOf(v))
      modifies Own(), table.cache.Repr()
      ensures Valid()
      ensures forall o :: o in Own() ==> o in old(Own()) || fresh(o)
      ensures forall o :: o in table.cache.Repr() ==> o in old(table.cache.Repr()) || fresh(o)
      ensures ReadsOnly(old(table.cache.slots), table.cache.slots, v.src) && table.cache.id == old(table.cache.id)
      ensures Pos() == old(Pos()).Prev(BlocksOf(v)) && r == Pos().Valid()
    {
      hide TableIterator.TableOk, TableIterator.IndexOk, TableIterator.BlockOk, Table.Valid, Layout.Of,
           BlockIter.Valid, ReadsOnly;
      NoReads(table.cache.slots, v.src);
      if currentBlock != null {
        var moved := PrevBlock();
        if moved {
          return true;
        }
      }
      r := BackABlock();
    }

    /** `valid`. */
    predicate IsValid()
      requires Valid()
      reads this, indexBlock, currentBlock
      reads table.cache, table.cache.list, table.cache.list.head, table.cache.list.nodes
      ensures IsValid() == Pos().Valid()
    {
      hide Table.Valid, Layout.Of, BlockIter.Valid, ReadsOnly;
      currentBlock != null && currentBlock.IsValid()
    }

    /** `current_key_val`: a copy of the current pair. */
    function Current(): (r: Option<Entry>)
      requires Valid()
      reads this, indexBlock, currentBlock
      reads table.cache, table.cache.list, table.cache.list.head, table.cache.list.nodes
      ensures r == Pos().Current(BlocksOf(v))
    {
      hide Table.Valid, Layout.Of, BlockIter.Valid, ReadsOnly;
      if currentBlock != null then currentBlock.Current() else None
    }

    /** The default `next`: advance, then copy the pair. */
    method Next() returns (r: Option<Entry>)
      requires Valid()
      modifies Own(), table.cache.Repr()
      ensures Valid()
      ensures forall o :: o in Own() ==> o in old(Own()) || fresh(o)
      ensures forall o :: o in table.cache.Repr() ==> o in old(table.cache.Repr()) || fresh(o)
      ensures ReadsOnly(old(table.cache.slots), table.cache.slots, v.src) && table.cache.id == old(table.cache.id)
      ensures Pos() == old(Pos()).Advance(BlocksOf(v))
      ensures r == if Pos().Valid() then Pos().Current(BlocksOf(v)) else None
    {
      hide TableIterator.TableOk, TableIterator.IndexOk, TableIterator.BlockOk, TableIterator.Wf, Table.Valid,
           Layout.Of, BlockIter.Valid, ReadsOnly;
      var more := Advance();
      if !more {
        return None;
      }
      r := Current();
    }

    /** Repeats `Next` until it returns `None`. */
    method TraverseAll() returns (out: seq<Entry>)
      requires Valid()
      modifies Own(), table.cache.Repr()
      ensures Valid() && Pos() == EndOfTable(BlocksOf(v))
      ensures forall o :: o in Own() ==> o in old(Own()) || fresh(o)
      ensures forall o :: o in table.cache.Repr() ==> o in old(table.cache.Repr()) || fresh(o)
      ensures ReadsOnly(old(table.cache.slots), table.cache.slots, v.src) && table.cache.id == old(table.cache.id)
      ensures out == old(Pos()).Ahead(BlocksOf(v))
    {
      ghost var bs, all := BlocksOf(v), Pos().Ahead(BlocksOf(v));
      hide TableIterator.TableOk, TableIterator.IndexOk, TableIterator.BlockOk, TableIterator.Wf, Table.Valid,
           Layout.Of, BlockIter.Valid, ReadsOnly;
      ghost var slots := table.cache.slots;
      NoReads(slots, v.src);
      out := [];
      PrependNothing(all);
      while true
        invariant Valid() && all == out + Pos().Ahead(bs)
        invariant forall o :: o in Own() ==> o in old(Own()) || fresh(o)
        invariant forall o :: o in table.cache.Repr() ==> o in old(table.cache.Repr()) || fresh(o)
        invariant ReadsOnly(slots, table.cache.slots, v.src) && table.cache.id == old(table.cache.id)
        decreases |Pos().Ahead(bs)|
      {
        ghost var was, before := Pos(), table.cache.slots;
        AdvanceTakesHead(bs, was);
        var pair := Next();
        ReadsCompose(slots, before, table.cache.slots, v.src);
        if pair.None? {
          AppendNothing(out);
          return;
        }
        Assoc(out, [pair.value], Pos().Ahead(bs));
        out := out + [pair.value];
      }
    }

    /** Any finite interleaving of the iterator's operations; `out` is what `Current` shows after each. */
    method RunAll(ops: seq<Op>) returns (out: seq<Option<Entry>>)
      requires Valid() && NoEmptyBlock(BlocksOf(v)) && |v.ix.es| == |v.blocks| && DoSeekToLast !in ops
      modifies Own(), table.cache.Repr()
      ensures Valid()
      ensures forall o :: o in Own() ==> o in old(Own()) || fresh(o)
      ensures forall o :: o in table.cache.Repr() ==> o in old(table.cache.Repr()) || fresh(o)
      ensures ReadsOnly(old(table.cache.slots), table.cache.slots, v.src) && table.cache.id == old(table.cache.id)
      ensures Pos() == TableCursors.After(BlocksOf(v), v.ix.es, old(Pos()), ops)
      ensures out == TableCursors.Observe(BlocksOf(v), v.ix.es, old(Pos()), ops)
    {
      ghost var bs, index, start := BlocksOf(v), v.ix.es, Pos();
      PrefixRun(bs, index, start, ops, 0);
      hide TableIterator.TableOk, TableIterator.IndexOk, TableIterator.BlockOk, TableIterator.Wf, Table.Valid,
           Layout.Of, BlockIter.Valid, ReadsOnly;
      ghost var slots := table.cache.slots;
      NoReads(slots, v.src);
      out := [];
      for i := 0 to |ops|
        invariant Valid() && NoEmptyBlock(bs) && DoSeekToLast !in ops[..i]
        invariant forall o :: o in Own() ==> o in old(Own()) || fresh(o)
        invariant forall o :: o in table.cache.Repr() ==> o in old(table.cache.Repr()) || fresh(o)
        invariant ReadsOnly(slots, table.cache.slots, v.src) && table.cache.id == old(table.cache.id)
        invariant Pos() == TableCursors.After(bs, index, start, ops[..i])
        invariant out == TableCursors.Observe(bs, index, start, ops[..i])
      {
        PrefixRun(bs, index, start, ops, i + 1);
        ghost var before := table.cache.slots;
        Perform(ops[i]);
        ReadsCompose(slots, before, table.cache.slots, v.src);
        var e := Current();
        out := out + [e];
      }
      assert ops[..|ops|] == ops;
    }

    method Perform(op: Op)
      requires Valid() && NoEmptyBlock(BlocksOf(v)) && |v.ix.es| == |v.blocks| && op != DoSeekToLast
      modifies Own(), table.cache.Repr()
      ensures Valid()
      ensures forall o :: o in Own() ==> o in old(Own()) || fresh(o)
      ensures forall o :: o in table.cache.Repr() ==> o in old(table.cache.Repr()) || fresh(o)
      ensures ReadsOnly(old(table.cache.slots), table.cache.slots, v.src) && table.cache.id == old(table.cache.id)
      ensures Pos() == TableCursors.Step(BlocksOf(v), v.ix.es, old(Pos()), op)
    {
      hide TableIterator.TableOk, TableIterator.IndexOk, TableIterator.BlockOk, Table.Valid, Layout.Of,
           BlockIter.Valid, ReadsOnly;
      NoReads(table.cache.slots, v.src);
      match op {
        case DoAdvance => var _ := Advance();
        case DoPrev => var _ := Prev();
        case DoReset => Reset();
        case DoSeek(to) => Seek(to);
      }
    }
  }

  // Where entering the block before leaves the abstract cursor.
  lemma CameFromBehind(v: View, was: TCursor, now: TCursor, ok: bool)
    requires NoEmptyBlock(BlocksOf(v)) && was.Fits(BlocksOf(v)) && was.ix.last > 0
    requires ok == v.blocks[was.ix.last - 1].Some? && HasEntry(v.blocks[was.ix.last - 1])
    requires var ix := was.ix.Prev();
             now == if ok then TCursor(ix, Some(Loaded(ix.last, Cursor.SeekToLast(|v.blocks[ix.last].value.es|))))
                    else TCursor(ix.Reset(), None)
    ensures now == was.BackABlock(BlocksOf(v)) && ok == now.Valid()
  {
  }

  lemma PrevIsBefore(c: Cursor)
    ensures c.last > 0 ==> c.Prev() == Cursor(c.last - 1, true)
  {
  }

  // A run of `i` operations, by its last one.
  lemma PrefixRun(bs: Blocks, index: seq<Entry>, c: TCursor, ops: seq<Op>, i: nat)
    requires c.Fits(bs) && NoEmptyBlock(bs) && |index| == |bs| && DoSeekToLast !in ops && i <= |ops|
    ensures DoSeekToLast !in ops[..i]
    ensures i == 0 ==>
              TableCursors.After(bs, index, c, ops[..i]) == c && TableCursors.Observe(bs, index, c, ops[..i]) == []
    ensures i > 0 ==> DoSeekToLast !in ops[..i - 1] && ops[i - 1] != DoSeekToLast
    ensures i > 0 ==>
              var was := TableCursors.After(bs, index, c, ops[..i - 1]);
              var now := TableCursors.Step(bs, index, was, ops[i - 1]);
              && TableCursors.After(bs, index, c, ops[..i]) == now
              && TableCursors.Observe(bs, index, c, ops[..i])
                 == TableCursors.Observe(bs, index, c, ops[..i - 1]) + [now.Current(bs)]
  {
    if i > 0 {
      assert ops[..i][..i - 1] == ops[..i - 1] && ops[i - 1] in ops;
    }
  }

  // Where a seek stands, the key is not below the target.
  lemma FoundIsNotBelow(was: Cursor, c: Cursor, es: seq<Entry>, to: Bytes)
    requires c == was.Seek(es, to) && c.valid
    ensures c.last < |es| && Cmp(to, es[c.last].key) != Greater
  {
    CmpFlip(es[c.last].key, to);
  }
}

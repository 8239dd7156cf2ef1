/**
 `BlockIter`: the stateful cursor over the raw bytes of a block.

 Every method is proved to move the abstract cursor `Pos()` as `Cursors.Cursor` says, for any bytes
 that satisfy `Layout.Of`. `last` and `next` are the ordinals behind `current_entry_offset` and
 `offset`; in the middle of `Prev` and `Seek` only `Wf` holds, where `key` is still that of an
 earlier entry.
 */
module BlockIteration {
  import opened Bytes
  import opened Codec
  import opened BlockFormat
  import opened Seqs
  import opened Cursors

  class BlockIter {
    const block: Bytes
    const restartsOff: nat

    var offset: nat
    var currentEntryOffset: nat
    var currentRestartIx: nat
    var key: Bytes
    var valOffset: nat

    ghost const l: Layout
    ghost var last: nat
    ghost var next: nat

    ghost predicate Wf()
      reads this
    {
      && l.Of(block)
      && restartsOff == l.offs[|l.es|]
      && (if |l.es| == 0 then last == 0 else last < |l.es|)
      && next <= |l.es|
      && currentEntryOffset == l.offs[last]
      && offset == l.offs[next]
      && currentRestartIx < |l.restarts|
      && l.restarts[currentRestartIx] <= next
      && l.KeyServes(next, key)
    }

    // No restart lies strictly between the current restart and the current entry.
    ghost predicate RestartIsRecent()
      requires l.Shape() && currentRestartIx < |l.restarts|
      reads this
    {
      && l.restarts[currentRestartIx] <= last
      && (currentRestartIx + 1 < |l.restarts| ==> last <= l.restarts[currentRestartIx + 1])
    }

    // Positioned on entry `last`.
    ghost predicate OnEntry()
      reads this
    {
      && Wf()
      && last < |l.es|
      && next == last + 1
      && key == l.es[last].key
      && valOffset + |l.es[last].val| == offset
      && 0 < valOffset
      && block[valOffset..offset] == l.es[last].val
      && RestartIsRecent()
    }

    // As left behind by `Reset`.
    ghost predicate OffEntry()
      reads this
    {
      Wf() && next == 0 && key == [] && valOffset == 0 && currentRestartIx == 0
    }

    ghost predicate Valid()
      reads this
    {
      if key != [] then OnEntry() else OffEntry()
    }

    ghost function Pos(): Cursor
      reads this
    {
      Cursor(last, key != [])
    }

    // What clients need of `Valid`.
    lemma NextIsBehind()
      requires Valid()
      ensures Wf() && Pos().Fits(|l.es|) && next == Pos().Next()
    {
      hide Layout.Of, Layout.KeyServes;
    }

    /** `Block::iter`. */
    constructor (block: Bytes, ghost l: Layout)
      requires l.Of(block)
      ensures Valid() && this.block == block && this.l == l && Pos() == FRESH
    {
      this.block := block;
      this.l := l;
      var restarts := DecodeFixed(block[|block| - 4..]);
      restartsOff := |block| - 4 - 4 * restarts;
      offset, currentEntryOffset, currentRestartIx, valOffset := 0, 0, 0, 0;
      key := [];
      last, next := 0, 0;
      new;
      FirstEntrySharesNothing(block, l, key);
    }

    function NumberRestarts(): (n: nat)
      requires l.Of(block)
      ensures n == |l.restarts|
    {
      DecodeFixed(block[|block| - 4..])
    }

    function GetRestartPoint(ix: nat): (off: nat)
      requires l.Of(block) && restartsOff == l.offs[|l.es|] && ix < |l.restarts|
      ensures l.restarts[ix] <= |l.es| && off == l.offs[l.restarts[ix]]
    {
      RestartFacts(l, block, ix);
      var restart := restartsOff + 4 * ix;
      DecodeFixed(block[restart..restart + 4])
    }

    /** Reads the header at `offset` and moves `offset` to the next entry. */
    method ParseEntryAndAdvance(ghost i: nat)
        returns (shared: nat, nonShared: nat, valSize: nat, headLen: nat)
      requires l.Of(block) && i < |l.es| && offset == l.offs[i]
      modifies this`offset, this`valOffset
      ensures offset == l.offs[i + 1]
      ensures var e := l.es[i];
              && shared == l.shared[i] <= |e.key| && nonShared == |e.key| - shared && valSize == |e.val|
              && l.offs[i] + headLen + nonShared == valOffset
              && valOffset + valSize == offset <= |block|
              && 0 < valOffset
              && block[l.offs[i] + headLen..valOffset] == e.key[shared..]
              && block[valOffset..offset] == e.val
    {
      hide *;
      ghost var l1, l2, l3 := ReadEntry(block, l, i);
      var (sh, sharedLen) := DecodeVar(block[offset..]).value;
      var (non, nonLen) := DecodeVar(block[offset + sharedLen..]).value;
      var (size, sizeLen) := DecodeVar(block[offset + sharedLen + nonLen..]).value;
      shared, nonShared, valSize, headLen := sh, non, size, sharedLen + nonLen + sizeLen;
      valOffset := offset + headLen + nonShared;
      offset := valOffset + valSize;
    }

    /** Truncates the key to its shared part and appends the stored part. */
    method AssembleKey(off: nat, shared: nat, nonShared: nat)
      requires off + nonShared <= |block|
      modifies this`key
      ensures key == old(key)[..if shared < |old(key)| then shared else |old(key)|] + block[off..off + nonShared]
    {
      if shared < |key| {
        key := key[..shared];
      }
      key := key + block[off..off + nonShared];
    }

    // Parses entry `i` with the key buffer as it is, and completes the key.
    method LoadEntry(ghost i: nat)
      requires l.Of(block) && i < |l.es| && offset == currentEntryOffset == l.offs[i]
      requires l.KeyServes(i, key)
      modifies this`offset, this`valOffset, this`key
      ensures key == l.es[i].key != []
      ensures offset == l.offs[i + 1] && 0 < valOffset
      ensures valOffset + |l.es[i].val| == offset <= |block|
      ensures block[valOffset..offset] == l.es[i].val
    {
      SharedFits(block, l, i);
      hide DecodeVar, EncodeVar, EntryBytes;
      var shared, nonShared, _, headLen := ParseEntryAndAdvance(i);
      hide Layout.Of;
      AssembleKey(currentEntryOffset + headLen, shared, nonShared);
      ghost var e := l.es[i];
      assert e.key == e.key[..shared] + e.key[shared..];
    }

    method SeekToRestartPoint(ix: nat)
      requires l.Of(block) && restartsOff == l.offs[|l.es|]
      requires ix < |l.restarts| && l.es != []
      modifies this
      ensures Valid() && Pos() == Cursor(l.restarts[ix], true)
      ensures currentRestartIx == ix
    {
      RestartFacts(l, block, ix);
      var off := GetRestartPoint(ix);
      offset := off;
      currentEntryOffset := off;
      currentRestartIx := ix;
      last := l.restarts[ix];
      next := last + 1;
      LoadEntry(last);
      NextIsServed(l, block, last);
      assert IsValid();
    }

    method Advance() returns (r: bool)
      requires Wf()
      modifies this
      ensures Valid()
      ensures r == (old(next) < |l.es|)
      ensures Pos() == if r then Cursor(old(next), true) else Cursor(old(last), false)
    {
      OffsetsOrdered(l, block, next);
      if offset >= restartsOff {
        Reset();
        return false;
      } else {
        currentEntryOffset := offset;
      }
      last := next;
      next := last + 1;
      LoadEntry(last);
      NextIsServed(l, block, last);

      var numRestarts := NumberRestarts();
      while currentRestartIx + 1 < numRestarts && GetRestartPoint(currentRestartIx + 1) < currentEntryOffset
        modifies this`currentRestartIx
        invariant currentRestartIx < numRestarts && l.restarts[currentRestartIx] <= last
        decreases numRestarts - currentRestartIx
      {
        OffsetsInjective(l, block, l.restarts[currentRestartIx + 1], last);
        currentRestartIx := currentRestartIx + 1;
      }
      if currentRestartIx + 1 < numRestarts {
        OffsetsInjective(l, block, l.restarts[currentRestartIx + 1], last);
      }
      r := true;
    }

    method Reset()
      requires Wf()
      modifies this
      ensures Valid() && Pos() == old(Pos()).Reset()
    {
      offset := 0;
      valOffset := 0;
      currentRestartIx := 0;
      key := [];
      next := 0;
      FirstEntrySharesNothing(block, l, key);
    }

    /** `valid`. */
    predicate IsValid()
      requires Valid()
      reads this
      ensures IsValid() == Pos().valid
    {
      assert key != [] ==> valOffset <= restartsOff by {
        if key != [] { OffsetsOrdered(l, block, next); }
      }
      key != [] && valOffset > 0 && valOffset <= restartsOff
    }

    /** `current_key_val`: a copy of the current pair. */
    function Current(): (r: Option<Entry>)
      requires Valid()
      reads this
      ensures Pos().Fits(|l.es|) && r == Pos().Current(l.es)
    {
      if IsValid() then
        assert OnEntry();
        OffsetsOrdered(l, block, next);
        Some(Entry(key, block[valOffset..offset]))
      else None
    }

    /** The default `next`: advance, then copy the pair. */
    method Next() returns (r: Option<Entry>)
      requires Wf()
      modifies this
      ensures Valid()
      ensures r == (if old(next) < |l.es| then Some(l.es[old(next)]) else None)
      ensures Pos() == if r.Some? then Cursor(old(next), true) else Cursor(old(last), false)
    {
      var more := Advance();
      if !more {
        return None;
      }
      r := Current();
    }

    // Puts the start of the next entry on restart `ix`, leaving the key buffer alone.
    method AimAtRestart(ix: nat)
      requires Wf() && ix < |l.restarts|
      modifies this`offset, this`currentRestartIx, this`next
      ensures Wf() && next == l.restarts[ix] && currentRestartIx == ix
    {
      RestartFacts(l, block, ix);
      currentRestartIx := ix;
      offset := GetRestartPoint(ix);
      next := l.restarts[ix];
    }

    method Prev() returns (result: bool)
      requires Valid()
      modifies this
      ensures Valid()
      ensures Pos() == old(Pos()).Prev()
      ensures result == (old(Pos()).last > 0)
    {
      hide Layout.EntryOk, Layout.RestartOk;
      var origOffset := currentEntryOffset;
      ghost var orig := last;
      OffsetsInjective(l, block, 0, orig);
      if origOffset == 0 {
        Reset();
        return false;
      }
      RestartFacts(l, block, 0);
      while GetRestartPoint(currentRestartIx) >= origOffset
        modifies this`currentRestartIx
        invariant currentRestartIx < |l.restarts|
        decreases currentRestartIx
      {
        // The source falls back to the end of the block when the first restart is not in front of
        // the entry; the first restart is at offset zero, so that does not happen.
        assert currentRestartIx != 0;
        currentRestartIx := currentRestartIx - 1;
      }
      AimAtRestart(currentRestartIx);
      OffsetsInjective(l, block, next, orig);
      assert offset < origOffset;

      result := Advance();
      while offset < origOffset
        invariant Valid() && Pos().valid && last < orig && result
        decreases orig - last
      {
        OffsetsInjective(l, block, next, orig);
        result := Advance();
      }
      OffsetsInjective(l, block, next, orig);
    }

    method SeekToLast()
      requires Wf() && l.es != []
      modifies this
      ensures Valid() && Pos() == Cursor.SeekToLast(|l.es|)
    {
      if NumberRestarts() > 0 {
        var numRestarts := NumberRestarts();
        SeekToRestartPoint(numRestarts - 1);
      } else {
        // The source resets here, but every block has a restart.
        assert false;
      }
      OffsetsOrdered(l, block, next);
      while offset < restartsOff
        invariant Valid() && Pos().valid
        invariant offset < restartsOff <==> next < |l.es|
        decreases |l.es| - next
      {
        var _ := Advance();
        OffsetsOrdered(l, block, next);
      }
      assert IsValid();
    }

    // The last restart whose key is below `to`, or the first restart.
    ghost predicate RestartBelow(left: nat, right: nat, to: Bytes)
      requires l.Of(block) && l.es != []
    {
      && left <= right < |l.restarts|
      && (left > 0 ==> l.RestartKeyBelow(left, to))
      && (right + 1 < |l.restarts| ==> !l.RestartKeyBelow(right + 1, to))
    }

    /** Binary search over the restarts. */
    method FindRestart(to: Bytes) returns (left: nat)
      requires Wf() && OffEntry() && Sorted(l.es)
      modifies this
      ensures Wf() && left < |l.restarts|
      ensures l.es != [] ==> RestartBelow(left, left, to)
      ensures l.es == [] ==> left == 0
    {
      left := 0;
      var right := if NumberRestarts() == 0 then 0 else NumberRestarts() - 1;
      if l.es == [] {
        SingleRestartWhenEmpty(l, block);
      }
      while left < right
        invariant Wf() && left <= right < |l.restarts|
        invariant l.es != [] ==> RestartBelow(left, right, to)
        decreases right - left
      {
        var middle := (left + right + 1) / 2;
        SeekToRestartPoint(middle);
        var c := Cmp(key, to);
        if c == Less {
          left := middle;
        } else {
          right := middle - 1;
        }
      }
      assert left == right;
    }

    // The linear part of a seek, from a restart that is not behind the target.
    method ScanForward(to: Bytes)
      requires Wf() && next <= LowerBound(l.es, to)
      requires next < |l.es| || l.es == []
      modifies this
      ensures Valid()
      ensures Pos() == FRESH.Seek(l.es, to)
    {
      hide Layout.Of, BlockIter.RestartIsRecent, LowerBound, Cmp;
      while true
        invariant Wf() && next <= LowerBound(l.es, to)
        invariant next < |l.es| || l.es == [] || last == |l.es| - 1
        decreases |l.es| - next
      {
        var pair := Next();
        if pair.None? || Cmp(pair.value.key, to) != Less {
          return;
        }
      }
    }

    /** Stops at the first entry of the whole block whose key is at least `to`. */
    method Seek(to: Bytes)
      requires Valid() && Sorted(l.es)
      modifies this
      ensures Valid()
      ensures Pos() == old(Pos()).Seek(l.es, to)
    {
      hide Layout.EntryOk, Layout.RestartOk, BlockIter.RestartIsRecent, LowerBound, Cmp;
      Reset();
      var left := FindRestart(to);
      AimAtRestart(left);
      if l.es != [] {
        BelowRestart(l, block, left, to);
        RestartFacts(l, block, left);
      }
      ScanForward(to);
    }

    /** Repeats `Next` until it returns `None`. */
    method DrainAll() returns (out: seq<Entry>)
      requires Valid()
      modifies this
      ensures Valid() && old(Pos()).Fits(|l.es|)
      ensures out == Drain(l.es, old(Pos()))
      ensures out == l.es[old(Pos()).Next()..]
    {
      ghost var start := Pos().Next();
      NextIsBehind();
      DrainIsSuffix(l.es, Pos());
      hide Layout.Of, Layout.KeyServes, BlockIter.RestartIsRecent, BlockIter.OnEntry, BlockIter.OffEntry,
           BlockIter.Wf, BlockIter.Valid, Drain, IsSlice;
      out := [];
      SliceStarts(l.es, start);
      while true
        invariant Valid() && Wf() && next == Pos().Next() <= |l.es| && IsSlice(out, l.es, start, next)
        decreases |l.es| - next
      {
        ghost var at := next;
        var pair := Next();
        if pair.None? {
          SliceEnds(out, l.es, start);
          return;
        }
        NextIsBehind();
        SliceGrows(out, l.es, start, at);
        out := out + [pair.value];
      }
    }

    /** Any finite interleaving of the iterator's operations; `out` is what `Current` shows after each. */
    method RunAll(ops: seq<Op>) returns (out: seq<Option<Entry>>)
      requires Valid() && Sorted(l.es)
      requires forall op :: op in ops ==> Allowed(l.es, op)
      modifies this
      ensures Valid() && old(Pos()).Fits(|l.es|)
      ensures Pos() == After(l.es, old(Pos()), ops)
      ensures out == Observe(l.es, old(Pos()), ops)
    {
      hide Layout.Of, BlockIter.RestartIsRecent;
      ghost var start := Pos();
      out := [];
      for i := 0 to |ops|
        invariant Valid()
        invariant Pos() == After(l.es, start, ops[..i])
        invariant out == Observe(l.es, start, ops[..i])
      {
        assert ops[..i + 1] == ops[..i] + [ops[i]];
        ObserveSnoc(l.es, start, ops[..i], ops[i]);
        match ops[i] {
          case DoAdvance => var _ := Advance();
          case DoPrev => var _ := Prev();
          case DoReset => Reset();
          case DoSeek(to) => Seek(to);
          case DoSeekToLast => SeekToLast();
        }
        var e := Current();
        out := out + [e];
      }
      assert ops[..|ops|] == ops;
    }
  }

  lemma NextIsServed(l: Layout, b: Bytes, i: nat)
    requires l.Of(b) && i < |l.es|
    ensures l.KeyServes(i + 1, l.es[i].key)
  {
  }

  lemma OffsetsInjective(l: Layout, b: Bytes, i: nat, j: nat)
    requires l.Of(b) && i <= |l.es| && j <= |l.es|
    ensures l.offs[i] < l.offs[j] <==> i < j
  {
  }

  lemma SingleRestartWhenEmpty(l: Layout, b: Bytes)
    requires l.Of(b) && l.es == []
    ensures |l.restarts| == 1
  {
    if |l.restarts| > 1 {
      RestartFacts(l, b, 1);
    }
  }

  // The lower bound is not in front of a restart whose key is below the target.
  lemma BelowRestart(l: Layout, b: Bytes, left: nat, to: Bytes)
    requires l.Of(b) && l.es != [] && Sorted(l.es) && left < |l.restarts|
    requires left > 0 ==> l.RestartKeyBelow(left, to)
    ensures l.restarts[left] <= LowerBound(l.es, to)
  {
    RestartFacts(l, b, left);
    var q := LowerBound(l.es, to);
    if left > 0 && q < l.restarts[left] {
      LtTrans(l.es[q].key, l.es[l.restarts[left]].key, to);
    }
  }
}

/**
 Reading blocks through the shared cache, as a function on the cache's slots.

 A table is known to the cache by its id; a block by that id and the block's file offset.
 */
module BlockCaching {
  import opened Bytes
  import opened Codec
  import opened Lru
  import opened TableFormat

  /** `block_cache_handle`: 16 bytes. */
  function CacheKey(id: nat, offset: nat): Bytes {
    EncodeFixed(id, 8) + EncodeFixed(offset, 8)
  }

  lemma CacheKeyInjective(id1: nat, off1: nat, id2: nat, off2: nat)
    requires id1 < U64 && off1 < U64 && id2 < U64 && off2 < U64
    requires CacheKey(id1, off1) == CacheKey(id2, off2)
    ensures id1 == id2 && off1 == off2
  {
    Fixed64RoundTrip(id1);
    Fixed64RoundTrip(id2);
    Fixed64RoundTrip(off1);
    Fixed64RoundTrip(off2);
    hide EncodeFixed, DecodeFixed;
    assert CacheKey(id1, off1)[..8] == EncodeFixed(id1, 8) && CacheKey(id1, off1)[8..] == EncodeFixed(off1, 8);
    assert CacheKey(id2, off2)[..8] == EncodeFixed(id2, 8) && CacheKey(id2, off2)[8..] == EncodeFixed(off2, 8);
  }

  /** `read_block`: `direct` is what reading the file gives. Errors are not cached. */
  function ReadThrough(slots: seq<Slot<Bytes>>, key: Bytes, direct: Result<Bytes>, cap: nat)
      : (seq<Slot<Bytes>>, Result<Bytes>)
    requires cap > 0
  {
    var (touched, hit) := Get(slots, key);
    if hit.Some? then (touched, Ok(hit.value))
    else if direct.Ok? then (Insert(slots, key, direct.value, cap), direct)
    else (slots, direct)
  }

  /**
   What a read leaves behind: a block that was read is the first slot, the others follow in the
   order of their last use as far as there is room; an error changes nothing.
   */
  lemma ReadStores(slots: seq<Slot<Bytes>>, key: Bytes, direct: Result<Bytes>, cap: nat)
    requires cap > 0 && |slots| <= cap && Distinct(Keys(slots))
    ensures var (slots', r) := ReadThrough(slots, key, direct, cap);
            && (r.Ok? ==> |slots'| > 0 && slots'[0] == Slot(key, r.value))
            && (r.Ok? ==> Keys(slots') == Take([key] + WithoutKey(Keys(slots), key), cap))
            && (r.Err? ==> slots' == slots && r == direct)
  {
    var i := Find(slots, key);
    if i < |slots| {
      HitOrder(slots, key);
      assert |Keys(Get(slots, key).0)| == |slots|;
      hide Keys, WithoutKey, Find;
    } else if direct.Ok? {
      StoreOrder(slots, key, direct.value, cap);
      hide Keys, WithoutKey, Find;
    }
  }

  /** Once read, a block is answered from the cache: the next read of it does not ask the file. */
  lemma NextReadHits(slots: seq<Slot<Bytes>>, key: Bytes, direct: Result<Bytes>, later: Result<Bytes>, cap: nat)
    requires cap > 0 && ReadThrough(slots, key, direct, cap).1.Ok?
    ensures var (slots', r) := ReadThrough(slots, key, direct, cap);
            && slots'[0] == Slot(key, r.value)
            && ReadThrough(slots', key, later, cap) == (slots', r)
  {
    var slots' := ReadThrough(slots, key, direct, cap).0;
    assert slots'[0].key == key;
    assert Find(slots', key) == 0;
    assert MoveToFront(slots', 0) == slots';
  }

  /** A table as the cache sees it: the blocks its index points to. */
  datatype Source = Source(id: nat, opt: Options, file: Bytes, handles: seq<BlockHandle>) {

    /** Ids and offsets are 64-bit, and a handle is determined by its offset. */
    ghost predicate WellFormed() {
      && id < U64
      && (forall i :: 0 <= i < |handles| ==> handles[i].offset < U64)
      && (forall i, j :: 0 <= i < |handles| && 0 <= j < |handles| && handles[i].offset == handles[j].offset ==>
            handles[i] == handles[j])
    }

    function Direct(i: nat): Result<Bytes>
      requires i < |handles|
    {
      ReadTableBlock(opt, file, handles[i])
    }

    function Key(i: nat): Bytes
      requires i < |handles|
    {
      CacheKey(id, handles[i].offset)
    }
  }

  /** Whatever the cache holds under a key of `src` is that block's contents. */
  ghost predicate Agrees(slots: seq<Slot<Bytes>>, src: Source) {
    forall n, i :: 0 <= n < |slots| && 0 <= i < |src.handles| && slots[n].key == src.Key(i) ==>
      src.Direct(i) == Ok(slots[n].val)
  }

  /** The answer of a read is that of reading the file, and the cache agrees with the table as before. */
  lemma ReadIsDirect(slots: seq<Slot<Bytes>>, src: Source, i: nat, cap: nat)
    requires cap > 0 && src.WellFormed() && Agrees(slots, src) && i < |src.handles|
    ensures var (slots', r) := ReadThrough(slots, src.Key(i), src.Direct(i), cap);
            r == src.Direct(i) && Agrees(slots', src)
  {
    hide ReadTableBlock, CacheKey;
    var (slots', r) := ReadThrough(slots, src.Key(i), src.Direct(i), cap);
    forall n, j | 0 <= n < |slots'| && 0 <= j < |src.handles| && slots'[n].key == src.Key(j)
      ensures src.Direct(j) == Ok(slots'[n].val)
    {
      SlotOrigin(slots, src.Key(i), src.Direct(i), cap, n);
      if slots'[n] !in slots {
        CacheKeyInjective(src.id, src.handles[i].offset, src.id, src.handles[j].offset);
      }
    }
  }

  // Every slot after a read was there before or holds the block just read.
  lemma SlotOrigin(slots: seq<Slot<Bytes>>, key: Bytes, direct: Result<Bytes>, cap: nat, n: nat)
    requires cap > 0 && n < |ReadThrough(slots, key, direct, cap).0|
    ensures var s := ReadThrough(slots, key, direct, cap).0[n];
            s in slots || (direct.Ok? && s == Slot(key, direct.value))
  {
    var i := Find(slots, key);
    hide Find;
    if i < |slots| {
      var moved := MoveToFront(slots, i);
      assert moved[n] == slots[if n == 0 then i else if n <= i then n - 1 else n];
    } else if direct.Ok? && n > 0 {
      assert Insert(slots, key, direct.value, cap)[n] == slots[n - 1];
    }
  }

  /** Reading a block of one table does not disturb what the cache holds of another. */
  lemma ReadKeepsOthers(slots: seq<Slot<Bytes>>, src: Source, i: nat, other: Source, cap: nat)
    requires cap > 0 && src.WellFormed() && other.WellFormed() && src.id != other.id
    requires Agrees(slots, other) && i < |src.handles|
    ensures Agrees(ReadThrough(slots, src.Key(i), src.Direct(i), cap).0, other)
  {
    hide ReadTableBlock, CacheKey;
    var slots' := ReadThrough(slots, src.Key(i), src.Direct(i), cap).0;
    forall n, j | 0 <= n < |slots'| && 0 <= j < |other.handles| && slots'[n].key == other.Key(j)
      ensures other.Direct(j) == Ok(slots'[n].val)
    {
      SlotOrigin(slots, src.Key(i), src.Direct(i), cap, n);
      if slots'[n].key == src.Key(i) {
        CacheKeyInjective(src.id, src.handles[i].offset, other.id, other.handles[j].offset);
      }
    }
  }

  // ---------- what reads of one table leave to the others ----------

  /** The slot holds a block of `src` under its key. */
  ghost predicate HoldsBlockOf(s: Slot<Bytes>, src: Source) {
    exists i :: 0 <= i < |src.handles| && s.key == src.Key(i) && src.Direct(i) == Ok(s.val)
  }

  /** Whatever is new in the cache is a block of `src`: what any number of reads of `src` amounts to. */
  ghost predicate ReadsOnly(was: seq<Slot<Bytes>>, now: seq<Slot<Bytes>>, src: Source) {
    forall s :: s in now ==> s in was || HoldsBlockOf(s, src)
  }

  lemma ReadReadsOnly(slots: seq<Slot<Bytes>>, src: Source, i: nat, cap: nat)
    requires cap > 0 && i < |src.handles|
    ensures ReadsOnly(slots, ReadThrough(slots, src.Key(i), src.Direct(i), cap).0, src)
  {
    hide ReadThrough, ReadTableBlock, CacheKey;
    var now := ReadThrough(slots, src.Key(i), src.Direct(i), cap).0;
    forall s | s in now ensures s in slots || HoldsBlockOf(s, src) {
      var n :| 0 <= n < |now| && now[n] == s;
      SlotOrigin(slots, src.Key(i), src.Direct(i), cap, n);
    }
  }

  lemma ReadsCompose(a: seq<Slot<Bytes>>, b: seq<Slot<Bytes>>, c: seq<Slot<Bytes>>, src: Source)
    requires ReadsOnly(a, b, src) && ReadsOnly(b, c, src)
    ensures ReadsOnly(a, c, src)
  {
    hide HoldsBlockOf;
  }

  lemma NoReads(slots: seq<Slot<Bytes>>, src: Source)
    ensures ReadsOnly(slots, slots, src)
  {
  }

  /** Reads of one table keep what the cache holds of every other table true to that table's file. */
  lemma ReadsKeepOthers(was: seq<Slot<Bytes>>, now: seq<Slot<Bytes>>, src: Source, other: Source)
    requires ReadsOnly(was, now, src) && src.WellFormed() && other.WellFormed() && src.id != other.id
    requires Agrees(was, other)
    ensures Agrees(now, other)
  {
    hide ReadTableBlock, CacheKey;
    forall n, j | 0 <= n < |now| && 0 <= j < |other.handles| && now[n].key == other.Key(j)
      ensures other.Direct(j) == Ok(now[n].val)
    {
      assert now[n] in now;
      if now[n] !in was {
        var i :| 0 <= i < |src.handles| && now[n].key == src.Key(i) && src.Direct(i) == Ok(now[n].val);
        CacheKeyInjective(src.id, src.handles[i].offset, other.id, other.handles[j].offset);
      }
    }
  }

  /** Ids up to `last` have been given out: every slot belongs to one of them. */
  ghost predicate IdsUpTo(slots: seq<Slot<Bytes>>, last: nat) {
    forall s :: s in slots ==> HasIdUpTo(s.key, last)
  }

  ghost predicate HasIdUpTo(key: Bytes, last: nat) {
    exists id: nat, off: nat :: id <= last && id < U64 && off < U64 && key == CacheKey(id, off)
  }

  lemma ReadsKeepIds(was: seq<Slot<Bytes>>, now: seq<Slot<Bytes>>, src: Source, last: nat)
    requires ReadsOnly(was, now, src) && src.WellFormed() && src.id <= last && IdsUpTo(was, last)
    ensures IdsUpTo(now, last)
  {
    hide ReadTableBlock, CacheKey;
    forall s | s in now ensures HasIdUpTo(s.key, last) {
      if s !in was {
        var i :| 0 <= i < |src.handles| && s.key == src.Key(i) && src.Direct(i) == Ok(s.val);
        assert s.key == CacheKey(src.id, src.handles[i].offset);
      }
    }
  }

  lemma IdsGrow(slots: seq<Slot<Bytes>>, last: nat, later: nat)
    requires IdsUpTo(slots, last) && last <= later
    ensures IdsUpTo(slots, later)
  {
    hide CacheKey;
    forall s | s in slots ensures HasIdUpTo(s.key, later) {
      var id: nat, off: nat :| id <= last && id < U64 && off < U64 && s.key == CacheKey(id, off);
    }
  }

  /** A cache of any history has nothing under the keys of a table with a new id. */
  lemma NewIdAgrees(slots: seq<Slot<Bytes>>, last: nat, src: Source)
    requires IdsUpTo(slots, last) && src.WellFormed() && last < src.id
    ensures Agrees(slots, src)
  {
    hide ReadTableBlock, CacheKey;
    forall n, j | 0 <= n < |slots| && 0 <= j < |src.handles| ensures slots[n].key != src.Key(j) {
      assert slots[n] in slots && HasIdUpTo(slots[n].key, last);
      var id: nat, off: nat :| id <= last && id < U64 && off < U64 && slots[n].key == CacheKey(id, off);
      if slots[n].key == src.Key(j) {
        CacheKeyInjective(id, off, src.id, src.handles[j].offset);
      }
    }
  }

  // ---------- any number of tables, any run of reads ----------

  datatype Request = Request(table: nat, block: nat)

  predicate Meaningful(srcs: seq<Source>, r: Request) {
    r.table < |srcs| && r.block < |srcs[r.table].handles|
  }

  ghost predicate AllMeaningful(srcs: seq<Source>, reqs: seq<Request>) {
    forall n :: 0 <= n < |reqs| ==> Meaningful(srcs, reqs[n])
  }

  ghost function Answers(srcs: seq<Source>, reqs: seq<Request>, slots: seq<Slot<Bytes>>, cap: nat): seq<Result<Bytes>>
    requires cap > 0 && AllMeaningful(srcs, reqs)
    decreases |reqs|
  {
    if reqs == [] then []
    else
      var src := srcs[reqs[0].table];
      var (slots', r) := ReadThrough(slots, src.Key(reqs[0].block), src.Direct(reqs[0].block), cap);
      [r] + Answers(srcs, reqs[1..], slots', cap)
  }

  ghost predicate Sharing(srcs: seq<Source>, slots: seq<Slot<Bytes>>) {
    && (forall t :: 0 <= t < |srcs| ==> srcs[t].WellFormed() && Agrees(slots, srcs[t]))
    && (forall t, u :: 0 <= t < u < |srcs| ==> srcs[t].id != srcs[u].id)
  }

  /**
   Transparency: with distinct ids, every answer over any run of reads of any tables that share the
   cache is what reading the file directly would give.
   */
  lemma {:induction false} CacheIsTransparent(srcs: seq<Source>, reqs: seq<Request>, slots: seq<Slot<Bytes>>, cap: nat,
                                              k: nat)
    requires cap > 0 && Sharing(srcs, slots) && AllMeaningful(srcs, reqs)
    ensures |Answers(srcs, reqs, slots, cap)| == |reqs|
    ensures k < |reqs| ==>
              Answers(srcs, reqs, slots, cap)[k] == srcs[reqs[k].table].Direct(reqs[k].block)
    decreases |reqs|
  {
    hide ReadThrough, ReadTableBlock, CacheKey, Agrees;
    if reqs == [] {
      return;
    }
    var req := reqs[0];
    assert Meaningful(srcs, req);
    var src := srcs[req.table];
    var (slots', r) := ReadThrough(slots, src.Key(req.block), src.Direct(req.block), cap);
    ReadIsDirect(slots, src, req.block, cap);
    forall t | 0 <= t < |srcs| ensures Agrees(slots', srcs[t]) {
      if t != req.table {
        ReadKeepsOthers(slots, src, req.block, srcs[t], cap);
      }
    }
    CacheIsTransparent(srcs, reqs[1..], slots', cap, if k > 0 then k - 1 else 0);
  }
}

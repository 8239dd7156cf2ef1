/**
 Any number of tables on one cache: tables are built and opened while others are being read.
 */
module Sharing {
  import opened Bytes
  import opened TableFormat
  import opened Lru
  import opened Caching
  import opened BlockCaching
  import opened TableImage
  import opened TableReading
  import opened TableBuilding
  import opened EndToEnd
  import opened Lookups
  import opened Scans

  datatype Content = Content(opt: Options, es: seq<Entry>)

  datatype Action = Open(content: Content) | Look(table: nat, key: Bytes) | List(table: nat)

  datatype Reply = Opened | Answer(value: Option<Bytes>) | Listing(es: seq<Entry>)

  /** What the tables opened in a run hold. */
  function ContentsAfter(actions: seq<Action>): seq<Content> {
    if actions == [] then []
    else
      var n := |actions| - 1;
      ContentsAfter(actions[..n]) + if actions[n].Open? then [actions[n].content] else []
  }

  ghost predicate SensibleNext(cs: seq<Content>, a: Action) {
    match a
    case Open(c) => Buildable(c.opt, c.es)
    case Look(t, _) => t < |cs|
    case List(t) => t < |cs|
  }

  /** Only tables that can be built are opened, and only open tables are read. */
  ghost predicate Sensible(actions: seq<Action>) {
    actions != [] ==>
      var n := |actions| - 1;
      Sensible(actions[..n]) && SensibleNext(ContentsAfter(actions[..n]), actions[n])
  }

  ghost predicate AllBuildable(cs: seq<Content>) {
    forall t :: 0 <= t < |cs| ==> Buildable(cs[t].opt, cs[t].es)
  }

  lemma {:induction false} SensibleBuildable(actions: seq<Action>)
    requires Sensible(actions)
    ensures AllBuildable(ContentsAfter(actions))
    decreases |actions|
  {
    hide Buildable;
    if actions != [] {
      SensibleBuildable(actions[..|actions| - 1]);
    }
  }

  ghost function ReplyTo(cs: seq<Content>, a: Action): Reply
    requires AllBuildable(cs) && SensibleNext(cs, a)
  {
    match a
    case Open(_) => Opened
    case Look(t, key) => Answer(GetAnswer(cs[t].opt, cs[t].es, key))
    case List(t) => Listing(cs[t].es)
  }

  /** What a client should read, table by table and without any cache. */
  ghost function Replies(actions: seq<Action>): seq<Reply>
    requires Sensible(actions)
  {
    if actions == [] then []
    else
      var n := |actions| - 1;
      SensibleBuildable(actions[..n]);
      Replies(actions[..n]) + [ReplyTo(ContentsAfter(actions[..n]), actions[n])]
  }

  lemma {:induction false} SensiblePrefix(actions: seq<Action>, i: nat)
    requires Sensible(actions) && i <= |actions|
    ensures Sensible(actions[..i])
    decreases |actions|
  {
    hide SensibleNext, ContentsAfter;
    if i == |actions| {
      assert actions[..i] == actions;
    } else {
      var n := |actions| - 1;
      SensiblePrefix(actions[..n], i);
      assert actions[..n][..i] == actions[..i];
    }
  }

  // The last action of a run and its reply.
  lemma LastAction(actions: seq<Action>)
    requires Sensible(actions) && actions != []
    ensures var n := |actions| - 1;
            var cs := ContentsAfter(actions[..n]);
            && Sensible(actions[..n]) && AllBuildable(cs) && SensibleNext(cs, actions[n])
            && ContentsAfter(actions) == cs + (if actions[n].Open? then [actions[n].content] else [])
            && Replies(actions) == Replies(actions[..n]) + [ReplyTo(cs, actions[n])]
  {
    hide SensibleNext, ReplyTo, AllBuildable;
    SensibleBuildable(actions[..|actions| - 1]);
  }

  lemma NextAction(actions: seq<Action>, i: nat)
    requires Sensible(actions) && i < |actions|
    ensures Sensible(actions[..i]) && Sensible(actions[..i + 1])
    ensures var cs := ContentsAfter(actions[..i]);
            && AllBuildable(cs) && SensibleNext(cs, actions[i])
            && ContentsAfter(actions[..i + 1]) == cs + (if actions[i].Open? then [actions[i].content] else [])
            && Replies(actions[..i + 1]) == Replies(actions[..i]) + [ReplyTo(cs, actions[i])]
  {
    hide Sensible, ContentsAfter, Replies, SensibleNext, ReplyTo, AllBuildable;
    SensiblePrefix(actions, i + 1);
    LastAction(actions[..i + 1]);
    assert actions[..i + 1][..i] == actions[..i];
  }

  // ---------- the tables and the cache ----------

  ghost predicate TableHolds(table: Table, c: Content, cache: Cache<Bytes>, id: nat, slots: seq<Slot<Bytes>>) {
    && table.opt == c.opt && table.cache == cache && table.cacheId == id
    && Belongs(table, c.es) && Agrees(slots, SourceOf(c.opt, c.es, id))
  }

  /** Table `t` holds content `t` under id `t` + 1, and `slots` are true to all of them. */
  ghost predicate AllHold(tables: seq<Table>, cs: seq<Content>, cache: Cache<Bytes>, slots: seq<Slot<Bytes>>) {
    |tables| == |cs| && forall t :: 0 <= t < |cs| ==> TableHolds(tables[t], cs[t], cache, t + 1, slots)
  }

  /** Reading one table leaves all of them as they were. */
  lemma AllHoldAfterReads(tables: seq<Table>, cs: seq<Content>, cache: Cache<Bytes>, was: seq<Slot<Bytes>>,
                          now: seq<Slot<Bytes>>, t: nat)
    requires AllHold(tables, cs, cache, was) && t < |cs| && Buildable(cs[t].opt, cs[t].es)
    requires ReadsOnly(was, now, SourceOf(cs[t].opt, cs[t].es, t + 1))
    requires TableHolds(tables[t], cs[t], cache, t + 1, now) && t + 1 < U64
    ensures AllHold(tables, cs, cache, now)
  {
    hide ReadsOnly, TableHolds, Buildable, SourceOf;
    forall u | 0 <= u < |cs| ensures TableHolds(tables[u], cs[u], cache, u + 1, now) {
      assert TableHolds(tables[u], cs[u], cache, u + 1, was);
      if u != t {
        HoldsAfterReads(tables[u], cs[u], cache, u + 1, was, now, cs[t], t + 1);
      }
    }
  }

  // Reading content `read` under another id.
  lemma HoldsAfterReads(table: Table, c: Content, cache: Cache<Bytes>, id: nat, was: seq<Slot<Bytes>>,
                        now: seq<Slot<Bytes>>, read: Content, readId: nat)
    requires TableHolds(table, c, cache, id, was) && Buildable(read.opt, read.es) && readId < U64 && readId != id
    requires ReadsOnly(was, now, SourceOf(read.opt, read.es, readId))
    ensures TableHolds(table, c, cache, id, now)
  {
    hide ReadsOnly, Agrees, Buildable, SourceOf, Table.IsFor, PartsOf;
    SourceFacts(read.opt, read.es, readId);
    SourceFacts(c.opt, c.es, id);
    ReadsKeepOthers(was, now, SourceOf(read.opt, read.es, readId), SourceOf(c.opt, c.es, id));
  }

  lemma SourceFacts(opt: Options, es: seq<Entry>, id: nat)
    requires Buildable(opt, es) && id < U64
    ensures SourceOf(opt, es, id).WellFormed() && SourceOf(opt, es, id).id == id
  {
    hide Buildable, ViewOf;
    SourceOk(opt, es, id);
    ViewParts(opt, es, id);
  }

  lemma TableIsOpen(tables: seq<Table>, cs: seq<Content>, cache: Cache<Bytes>, t: nat)
    requires cache.Valid() && AllHold(tables, cs, cache, cache.slots) && t < |cs|
    ensures t < |tables| && OpenOn(tables[t], cs[t].es)
    ensures tables[t].opt == cs[t].opt && tables[t].cacheId == t + 1 && tables[t].cache == cache
    ensures Buildable(cs[t].opt, cs[t].es) && t + 1 < U64
  {
    hide Cache.Valid, Agrees, ViewOf, Table.IsFor, Buildable, PartsOf;
    assert TableHolds(tables[t], cs[t], cache, t + 1, cache.slots);
  }

  lemma SharedAfterReads(tables: seq<Table>, cs: seq<Content>, cache: Cache<Bytes>, was: seq<Slot<Bytes>>, t: nat)
    requires t < |cs| && t + 1 <= cache.id && t + 1 < U64 && AllHold(tables, cs, cache, was) && IdsUpTo(was, cache.id)
    requires OpenOn(tables[t], cs[t].es)
    requires tables[t].opt == cs[t].opt && tables[t].cacheId == t + 1 && tables[t].cache == cache
    requires ReadsOnly(was, cache.slots, SourceOf(cs[t].opt, cs[t].es, t + 1))
    ensures AllHold(tables, cs, cache, cache.slots) && IdsUpTo(cache.slots, cache.id)
  {
    hide Cache.Valid, Agrees, SourceOf, Buildable, PartsOf, Table.IsFor, AllHold, IdsUpTo, ReadsOnly;
    AllHoldAfterReads(tables, cs, cache, was, cache.slots, t);
    SourceFacts(cs[t].opt, cs[t].es, t + 1);
    ReadsKeepIds(was, cache.slots, SourceOf(cs[t].opt, cs[t].es, t + 1), cache.id);
  }

  method LookIn(tables: seq<Table>, t: nat, key: Bytes, cache: Cache<Bytes>, ghost cs: seq<Content>) returns (r: Reply)
    requires cache.Valid() && AllHold(tables, cs, cache, cache.slots) && t < |cs| && AllBuildable(cs)
    requires IdsUpTo(cache.slots, cache.id) && |cs| <= cache.id < U64
    modifies cache.Repr()
    ensures cache.Valid() && AllHold(tables, cs, cache, cache.slots)
    ensures IdsUpTo(cache.slots, cache.id) && cache.id == old(cache.id)
    ensures forall o :: o in cache.Repr() ==> o in old(cache.Repr()) || fresh(o)
    ensures r == ReplyTo(cs, Look(t, key))
  {
    hide ReadsOnly, Cache.Valid, IdsUpTo, GetAnswer, AllHold, SourceOf, Agrees, Belongs, Buildable;
    TableIsOpen(tables, cs, cache, t);
    ghost var was := cache.slots;
    var got := GetOne(tables[t], key, cs[t].es);
    SharedAfterReads(tables, cs, cache, was, t);
    r := Answer(got.value);
  }

  method ListOf(tables: seq<Table>, t: nat, cache: Cache<Bytes>, ghost cs: seq<Content>) returns (r: Reply)
    requires cache.Valid() && AllHold(tables, cs, cache, cache.slots) && t < |cs| && AllBuildable(cs)
    requires IdsUpTo(cache.slots, cache.id) && |cs| <= cache.id < U64
    modifies cache.Repr()
    ensures cache.Valid() && AllHold(tables, cs, cache, cache.slots)
    ensures IdsUpTo(cache.slots, cache.id) && cache.id == old(cache.id)
    ensures forall o :: o in cache.Repr() ==> o in old(cache.Repr()) || fresh(o)
    ensures r == ReplyTo(cs, List(t))
  {
    hide ReadsOnly, Cache.Valid, IdsUpTo, AllHold, SourceOf, Agrees, Belongs, Buildable;
    TableIsOpen(tables, cs, cache, t);
    ghost var was := cache.slots;
    var out := Scan(tables[t], cs[t].es);
    SharedAfterReads(tables, cs, cache, was, t);
    r := Listing(out);
  }

  method BuildAndOpen(c: Content, cache: Cache<Bytes>, tables: seq<Table>, ghost cs: seq<Content>)
      returns (more: seq<Table>)
    requires Buildable(c.opt, c.es) && cache.Valid() && AllHold(tables, cs, cache, cache.slots)
    requires IdsUpTo(cache.slots, cache.id) && |cs| == cache.id && cache.id + 1 < U64
    modifies cache`id
    ensures cache.Valid() && AllHold(more, cs + [c], cache, cache.slots)
    ensures IdsUpTo(cache.slots, cache.id) && cache.id == old(cache.id) + 1
  {
    hide TableBytes, Agrees, ViewOf, Table.IsFor, IdsUpTo, PartsOf, TableHolds, Sorted, NonEmptyKeys, Fits;
    var file, _ := BuildTable(c.opt, c.es);
    hide Buildable;
    var table := OpenBuilt(c.opt, file, c.es, cache);
    more := tables + [table];
    NewTableHolds(table, c, cache, cache.id, cache.slots);
    forall t | 0 <= t < |cs + [c]| ensures TableHolds(more[t], (cs + [c])[t], cache, t + 1, cache.slots) {
      if t < |cs| {
        assert TableHolds(tables[t], cs[t], cache, t + 1, cache.slots);
      }
    }
  }

  lemma NewTableHolds(table: Table, c: Content, cache: Cache<Bytes>, id: nat, slots: seq<Slot<Bytes>>)
    requires table.opt == c.opt && table.cache == cache && table.cacheId == id
    requires Belongs(table, c.es) && Agrees(slots, SourceOf(table.opt, c.es, table.cacheId))
    ensures TableHolds(table, c, cache, id, slots)
  {
  }

  method Act(a: Action, tables: seq<Table>, cache: Cache<Bytes>, ghost cs: seq<Content>)
      returns (more: seq<Table>, reply: Reply)
    requires cache.Valid() && AllHold(tables, cs, cache, cache.slots) && AllBuildable(cs) && SensibleNext(cs, a)
    requires IdsUpTo(cache.slots, cache.id) && |cs| == cache.id && cache.id + 1 < U64
    modifies cache.Repr()
    ensures cache.Valid() && IdsUpTo(cache.slots, cache.id)
    ensures AllHold(more, cs + (if a.Open? then [a.content] else []), cache, cache.slots)
    ensures cache.id == old(cache.id) + if a.Open? then 1 else 0
    ensures forall o :: o in cache.Repr() ==> o in old(cache.Repr()) || fresh(o)
    ensures reply == ReplyTo(cs, a)
  {
    hide AllHold, IdsUpTo, Cache.Valid, AllBuildable, Buildable, GetAnswer;
    more := tables;
    assert cs + [] == cs;
    match a {
      case Open(c) =>
        more := BuildAndOpen(c, cache, tables, cs);
        reply := Opened;
      case Look(t, key) =>
        reply := LookIn(tables, t, key, cache, cs);
      case List(t) =>
        reply := ListOf(tables, t, cache, cs);
    }
  }

  /**
   Any run of builds, openings, lookups and traversals on one cache: every reply is the one for its
   own table, whatever the other tables have been doing.
   */
  method Serve(actions: seq<Action>, capacity: nat) returns (replies: seq<Reply>)
    requires Sensible(actions) && |actions| + 1 < U64 && capacity > 0
    ensures replies == Replies(actions)
  {
    replies := [];
    var cache := new Cache<Bytes>(capacity);
    var tables := [];
    ghost var cs := [];
    assert actions[..0] == [] && actions[..|actions|] == actions;
    assert Sensible([]) && ContentsAfter([]) == [] && Replies([]) == [];
    assert AllHold(tables, cs, cache, cache.slots) && IdsUpTo(cache.slots, cache.id);
    hide AllHold, IdsUpTo, Cache.Valid, Replies, ContentsAfter, Sensible, SensibleNext, AllBuildable, ReplyTo;
    for i := 0 to |actions|
      invariant Sensible(actions[..i]) && cs == ContentsAfter(actions[..i]) && replies == Replies(actions[..i])
      invariant cache.Valid() && AllHold(tables, cs, cache, cache.slots)
      invariant forall o :: o in cache.Repr() ==> fresh(o)
      invariant IdsUpTo(cache.slots, cache.id) && cache.id == |cs| <= i
    {
      NextAction(actions, i);
      var reply;
      tables, reply := Act(actions[i], tables, cache, cs);
      cs := ContentsAfter(actions[..i + 1]);
      replies := replies + [reply];
    }
  }
}

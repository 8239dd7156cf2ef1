/**
 The LRU block cache: a doubly linked list with a head node, and a map from keys to list nodes.
 */
module Caching {
  import opened Bytes
  import opened Lru
  import opened Seqs

  class Node {
    var next: Node?
    var prev: Node?
    var data: Option<Bytes>

    constructor (data: Option<Bytes>, prev: Node?)
      ensures this.data == data && this.prev == prev && next == null
    {
      this.data := data;
      this.prev := prev;
      next := null;
    }
  }

  class LruList {
    const head: Node
    var count: nat

    /** The nodes behind the head, most recently used first. */
    ghost var nodes: seq<Node>
    /** What they hold. */
    ghost var elems: seq<Bytes>

    // Whom node `i` of `ns` follows.
    ghost function Before(ns: seq<Node>, i: nat): Node
      requires i <= |ns|
    {
      if i == 0 then head else ns[i - 1]
    }

    // Who is at position `i`; null behind the end.
    ghost function At(ns: seq<Node>, i: nat): Node? {
      if i < |ns| then ns[i] else null
    }

    // The `next` chain from the head is `ns`, the `prev` chain from `head.prev` its reverse.
    ghost predicate Linked(ns: seq<Node>)
      reads head, ns
    {
      && head !in ns
      && (forall i, j :: 0 <= i < j < |ns| ==> ns[i] != ns[j])
      && head.next == At(ns, 0)
      && (forall i {:trigger ns[i].next} :: 0 <= i < |ns| ==> ns[i].next == At(ns, i + 1))
      && (forall i {:trigger ns[i].prev} :: 0 <= i < |ns| ==> ns[i].prev == Before(ns, i))
      && (if ns == [] then head.prev == null || head.prev == head else head.prev == ns[|ns| - 1])
    }

    ghost predicate Valid()
      reads this, head, nodes
    {
      && count == |nodes|
      && Linked(nodes)
      && |elems| == |nodes|
      && (forall i {:trigger nodes[i].data} :: 0 <= i < |nodes| ==> nodes[i].data == Some(elems[i]))
    }

    ghost function Repr(): set<object>
      reads this
    {
      {this, head} + set n | n in nodes
    }

    constructor ()
      ensures Valid() && nodes == [] && elems == [] && fresh(head)
    {
      head := new Node(None, null);
      count := 0;
      nodes := [];
      elems := [];
    }

    /** `insert`: a new node at the front. */
    method Insert(elem: Bytes) returns (newp: Node)
      requires Valid()
      modifies this, head, nodes
      ensures Valid() && fresh(newp)
      ensures nodes == [newp] + old(nodes)
      ensures elems == [elem] + old(elems)
    {
      count := count + 1;
      newp := new Node(Some(elem), head);
      if head.next != null {
        head.next.prev := newp;
        newp.next := head.next;
        head.next := newp;
      } else {
        head.prev := newp;
        head.next := newp;
      }
      nodes := [newp] + nodes;
      elems := [elem] + elems;
    }

    /** `remove_last`: unlinks the least recently used node and takes its element. */
    method RemoveLast() returns (r: Option<Bytes>)
      requires Valid()
      modifies this, head, nodes
      ensures Valid()
      ensures old(nodes) == [] ==> r == None && nodes == [] && elems == []
      ensures old(nodes) != [] ==>
                var n := old(|nodes|) - 1;
                r == Some(old(elems)[n]) && nodes == old(nodes)[..n] && elems == old(elems)[..n]
    {
      if head.prev != null {
        ghost var rest := if nodes == [] then [] else nodes[..|nodes| - 1];
        assert forall j :: 0 <= j < |rest| ==> rest[j] == nodes[j];
        assert nodes != [] ==> head.prev.prev == Before(nodes, |nodes| - 1);
        var secondLast := head.prev.prev;
        var lasto := secondLast.next;
        secondLast.next := null;
        if lasto != null {
          head.prev := lasto.prev;
          count := count - 1;
          r := lasto.data;
          lasto.data := None;
          nodes := rest;
          elems := elems[..|rest|];
        } else {
          r := None;
        }
      } else {
        r := None;
      }
    }

    // First half of `ReinsertFront`: the neighbours skip the node, which then refers to itself.
    method Bypass(handle: Node, ghost ns: seq<Node>, ghost i: nat)
      requires Linked(ns) && i < |ns| && ns[i] == handle
      modifies head, ns
      ensures Linked(ns[..i] + ns[i + 1..])
      ensures handle.next == handle && (|ns| == 1 ==> handle.prev == head)
      ensures forall n :: n in ns ==> n.data == old(n.data)
    {
      var prevp := handle.prev;
      if handle.next != null {
        handle.next.prev := prevp;
      } else {
        head.prev := prevp;
      }
      prevp.next, handle.next := handle.next, prevp.next;
      ghost var rest := ns[..i] + ns[i + 1..];
      assert forall j :: 0 <= j < |rest| ==> rest[j] == ns[if j < i then j else j + 1];
      forall j {:trigger rest[j].next} | 0 <= j < |rest| ensures rest[j].next == At(rest, j + 1) {
      }
      forall j {:trigger rest[j].prev} | 0 <= j < |rest| ensures rest[j].prev == Before(rest, j) {
      }
    }

    // Second half: swapping with `head.next` puts the self-referring node in front.
    method PutFirst(handle: Node, ghost ns: seq<Node>)
      requires Linked(ns) && handle !in ns && handle != head
      requires handle.next == handle && (ns == [] ==> handle.prev == head)
      modifies head, ns, handle
      ensures Linked([handle] + ns)
      ensures forall n :: n in [handle] + ns ==> n.data == old(n.data)
    {
      handle.next, head.next := head.next, handle.next;
      if handle.next != null {
        handle.prev := handle.next.prev;
        handle.next.prev := handle;
      } else {
        // the only node: `head.prev` must not point to the head
        head.prev := handle;
      }
      assert head.next != null;
      assert head.prev != null;
    }

    lemma InList(ns: seq<Node>, n: Node, i: nat)
      requires Linked(ns) && i < |ns| && ns[i] == n
      ensures n != head && n !in ns[..i] + ns[i + 1..]
    {
    }

    /** `reinsert_front`: the pointer swaps that move a node behind the head. */
    method ReinsertFront(handle: Node, ghost i: nat)
      requires Valid() && i < |nodes| && nodes[i] == handle
      modifies this, head, nodes
      ensures Valid()
      ensures nodes == [handle] + (old(nodes)[..i] + old(nodes)[i + 1..])
      ensures elems == [old(elems)[i]] + (old(elems)[..i] + old(elems)[i + 1..])
    {
      hide LruList.Linked;
      InList(nodes, handle, i);
      MovedFrom(nodes, i);
      MovedFrom(elems, i);
      Bypass(handle, nodes, i);
      ghost var rest := nodes[..i] + nodes[i + 1..];
      PutFirst(handle, rest);
      assert forall n :: n in rest ==> n in nodes;
      nodes := [handle] + rest;
      elems := [elems[i]] + (elems[..i] + elems[i + 1..]);
    }
  }

  // Each slot's key maps to its value and its node, and every key of the map has a slot.
  ghost predicate MapAgrees<V>(entries: map<Bytes, (V, Node)>, slots: seq<Slot<V>>, nodes: seq<Node>) {
    && |slots| == |nodes|
    && Distinct(Keys(slots))
    && (forall i {:trigger slots[i]} :: 0 <= i < |slots| ==>
          slots[i].key in entries && entries[slots[i].key] == (slots[i].val, nodes[i]))
    && (forall k :: k in entries ==> Find(slots, k) < |slots|)
  }

  lemma FoundIfPresent<V>(slots: seq<Slot<V>>, key: Bytes, i: nat)
    requires i < |slots| && slots[i].key == key
    ensures Find(slots, key) < |slots|
  {
    hide Find;
  }

  lemma KeysOfPrefix<V>(slots: seq<Slot<V>>, n: nat)
    requires n <= |slots|
    ensures Keys(slots[..n]) == Keys(slots)[..n]
  {
  }

  lemma KeysOfCons<V>(slot: Slot<V>, slots: seq<Slot<V>>)
    ensures Keys([slot] + slots) == [slot.key] + Keys(slots)
  {
  }

  lemma AgreesWithoutLast<V>(entries: map<Bytes, (V, Node)>, slots: seq<Slot<V>>, nodes: seq<Node>)
    requires MapAgrees(entries, slots, nodes) && slots != []
    ensures var n := |slots| - 1;
            slots[n].key in entries && MapAgrees(entries - {slots[n].key}, slots[..n], nodes[..n])
  {
    var n := |slots| - 1;
    var fewer := entries - {slots[n].key};
    assert Keys(slots[..n]) == Keys(slots)[..n];
    assert forall i :: 0 <= i < n ==> Keys(slots)[i] != Keys(slots)[n];
    forall k | k in fewer ensures Find(slots[..n], k) < n {
      assert slots[Find(slots, k)].key == k;
      FoundIfPresent(slots[..n], k, Find(slots, k));
    }
  }

  lemma NewKeyDistinct<V>(slot: Slot<V>, slots: seq<Slot<V>>)
    requires Distinct(Keys(slots)) && forall i :: 0 <= i < |slots| ==> slots[i].key != slot.key
    ensures Distinct(Keys([slot] + slots))
  {
    hide Distinct;
    KeysOfCons(slot, slots);
    DistinctCons(slot.key, Keys(slots));
  }

  lemma AgreesWithNew<V>(entries: map<Bytes, (V, Node)>, slots: seq<Slot<V>>, nodes: seq<Node>,
                         key: Bytes, val: V, node: Node)
    requires MapAgrees(entries, slots, nodes) && key !in entries
    ensures MapAgrees(entries[key := (val, node)], [Slot(key, val)] + slots, [node] + nodes)
  {
    hide Find, Distinct, Keys;
    var more := entries[key := (val, node)];
    var all := [Slot(key, val)] + slots;
    NewKeyDistinct(Slot(key, val), slots);
    assert forall i :: 1 <= i < |all| ==> all[i] == slots[i - 1];
    forall k | k in more ensures Find(all, k) < |all| {
      FoundIfPresent(all, k, if k == key then 0 else Find(slots, k) + 1);
    }
  }

  lemma MovedDistinct(ks: seq<Bytes>, moved: seq<Bytes>, i: nat)
    requires Distinct(ks) && i < |ks| && |moved| == |ks|
    requires forall j :: 0 <= j < |ks| ==> moved[j] == ks[Origin(i, j)]
    ensures Distinct(moved)
  {
    forall x, y | 0 <= x < y < |moved| ensures moved[x] != moved[y] {
      assert Origin(i, x) != Origin(i, y);
    }
  }

  lemma StillFound<V>(slots: seq<Slot<V>>, moved: seq<Slot<V>>, key: Bytes, i: nat)
    requires i < |slots| == |moved| && Find(slots, key) < |slots|
    requires forall j :: 0 <= j < |slots| ==> moved[j] == slots[Origin(i, j)]
    ensures Find(moved, key) < |moved|
  {
    hide Find;
    var j := Find(slots, key);
    var to := if j < i then j + 1 else if j == i then 0 else j;
    assert Origin(i, to) == j;
    FoundIfPresent(moved, key, to);
  }

  // The keys move as the slots do, and stay distinct.
  lemma KeysMoved<V>(slots: seq<Slot<V>>, i: nat)
    requires Distinct(Keys(slots)) && i < |slots|
    ensures var moved := MoveToFront(slots, i);
            && |moved| == |slots| && (forall j :: 0 <= j < |slots| ==> moved[j] == slots[Origin(i, j)])
            && Keys(moved) == [slots[i].key] + (Keys(slots)[..i] + Keys(slots)[i + 1..])
            && Distinct(Keys(moved))
  {
    hide Distinct;
    var moved := MoveToFront(slots, i);
    MovedFrom(slots, i);
    MovedFrom(Keys(slots), i);
    assert forall j :: 0 <= j < |moved| ==> Keys(moved)[j] == moved[j].key;
    MovedDistinct(Keys(slots), Keys(moved), i);
  }

  lemma AgreesMoved<V>(entries: map<Bytes, (V, Node)>, slots: seq<Slot<V>>, nodes: seq<Node>, i: nat)
    requires MapAgrees(entries, slots, nodes) && i < |slots|
    ensures MapAgrees(entries, MoveToFront(slots, i), [nodes[i]] + (nodes[..i] + nodes[i + 1..]))
    ensures Keys(MoveToFront(slots, i)) == [slots[i].key] + (Keys(slots)[..i] + Keys(slots)[i + 1..])
  {
    hide Find, Distinct, Keys, MoveToFront;
    var moved := MoveToFront(slots, i);
    KeysMoved(slots, i);
    MovedFrom(nodes, i);
    forall k | k in entries ensures Find(moved, k) < |moved| {
      StillFound(slots, moved, k, i);
    }
  }

  class Cache<V> {
    const list: LruList
    var entries: map<Bytes, (V, Node)>
    const cap: nat
    var id: nat

    /** The abstract cache: the slots from most to least recently used. */
    ghost var slots: seq<Slot<V>>

    // The list holds the keys of the map, and each key's handle is the node that holds it.
    ghost predicate Valid()
      reads this, list, list.head, list.nodes
    {
      && cap > 0
      && list.Valid()
      && list.count <= cap
      && list.elems == Keys(slots)
      && MapAgrees(entries, slots, list.nodes)
    }

    ghost function Repr(): set<object>
      reads this, list
    {
      {this} + list.Repr()
    }

    constructor (capacity: nat)
      requires capacity > 0
      ensures Valid() && fresh(Repr()) && cap == capacity && slots == [] && id == 0
    {
      list := new LruList();
      entries := map[];
      cap := capacity;
      id := 0;
      slots := [];
    }

    /** `new_cache_id`. */
    method NewCacheId() returns (r: nat)
      requires Valid()
      modifies this`id
      ensures Valid()
      ensures id == r == old(id) + 1
    {
      id := id + 1;
      return id;
    }

    /** `insert` of a key that is not in the cache. */
    method Insert(key: Bytes, elem: V)
      requires Valid() && Find(slots, key) == |slots|
      modifies Repr()
      ensures Valid() && fresh(Repr() - old(Repr())) && id == old(id)
      ensures slots == Lru.Insert(old(slots), key, elem, cap)
    {
      hide MapAgrees, LruList.Linked, Find, Keys;
      KeyAbsent(key);
      if list.count >= cap {
        AgreesWithoutLast(entries, slots, list.nodes);
        var removed := list.RemoveLast();
        assert removed.Some?;
        assert removed.value in entries;
        entries := entries - {removed.value};
        KeysOfPrefix(slots, |slots| - 1);
        slots := slots[..|slots| - 1];
      }
      ghost var was := list.nodes;
      var handle := list.Insert(key);
      AgreesWithNew(entries, slots, was, key, elem, handle);
      entries := entries[key := (elem, handle)];
      KeysOfCons(Slot(key, elem), slots);
      slots := [Slot(key, elem)] + slots;
    }

    lemma KeyAbsent(key: Bytes)
      requires Valid()
      ensures key in entries <==> Find(slots, key) < |slots|
      ensures key in entries ==>
                var i := Find(slots, key);
                i < |list.nodes| && list.nodes[i] == entries[key].1 && slots[i].val == entries[key].0
    {
    }

    /** `get`: a hit moves the key to the front. */
    method Get(key: Bytes) returns (r: Option<V>)
      requires Valid()
      modifies Repr()
      ensures Valid() && Repr() == old(Repr()) && id == old(id)
      ensures (slots, r) == Lru.Get(old(slots), key)
    {
      hide MapAgrees, LruList.Linked, Find, Keys;
      KeyAbsent(key);
      if key !in entries {
        return None;
      }
      var (elem, handle) := entries[key];
      ghost var i := Find(slots, key);
      AgreesMoved(entries, slots, list.nodes, i);
      list.ReinsertFront(handle, i);
      slots := MoveToFront(slots, i);
      r := Some(elem);
    }
  }

  // The first operation of a run, and the rest.
  lemma RunUnfolds<V>(st: State<V>, ops: seq<Use<V>>, i: nat, cap: nat)
    requires cap > 0 && i < |ops| && AllAllowed(st, ops[i..], cap)
    ensures Allowed(st, ops[i]) && AllAllowed(Lru.Step(st, ops[i], cap), ops[i + 1..], cap)
    ensures Run(st, ops[i..], cap) == Run(Lru.Step(st, ops[i], cap), ops[i + 1..], cap)
  {
    assert ops[i..][1..] == ops[i + 1..];
  }

  lemma AbsentKey<V>(slots: seq<Slot<V>>, key: Bytes)
    requires key !in Keys(slots)
    ensures Find(slots, key) == |slots|
  {
    assert forall i :: 0 <= i < |slots| ==> Keys(slots)[i] == slots[i].key && Keys(slots)[i] in Keys(slots);
  }

  /** Performs a run on a new cache; afterwards it holds the keys used most recently. */
  method RunOnNewCache<V>(capacity: nat, ops: seq<Use<V>>) returns (c: Cache<V>)
    requires capacity > 0 && AllAllowed(State([], []), ops, capacity)
    ensures fresh(c) && c.Valid() && c.cap == capacity
    ensures var end := Run(State([], []), ops, capacity);
            && c.slots == end.slots
            && Keys(c.slots) == Take(Recency(end.history), capacity)
  {
    ghost var st: State<V> := State([], []);
    RunKeepsMostRecent(st, ops, capacity);
    hide MapAgrees, LruList.Linked, Find, Keys, Recency, Lru.Get, Lru.Insert;
    c := new Cache<V>(capacity);
    assert ops[0..] == ops;
    for i := 0 to |ops|
      invariant fresh(c) && fresh(c.Repr()) && c.Valid() && c.cap == capacity && c.slots == st.slots
      invariant AllAllowed(st, ops[i..], capacity) && Run(st, ops[i..], capacity) == Run(State([], []), ops, capacity)
    {
      RunUnfolds(st, ops, i, capacity);
      match ops[i] {
        case Fetch(key) =>
          var _ := c.Get(key);
        case Store(key, val) =>
          AbsentKey(c.slots, key);
          c.Insert(key, val);
      }
      st := Lru.Step(st, ops[i], capacity);
    }
  }
}

/**
 What the block cache does, as a sequence of slots from most to least recently used.

 The pointer structure in `Caching` refines these functions; the laws of the cache are proved here.
 */
module Lru {
  import opened Bytes
  import opened Seqs

  datatype Slot<+V> = Slot(key: Bytes, val: V)

  function Keys<V>(s: seq<Slot<V>>): (ks: seq<Bytes>)
    ensures |ks| == |s|
    ensures forall i :: 0 <= i < |s| ==> ks[i] == s[i].key
  {
    seq(|s|, i requires 0 <= i < |s| => s[i].key)
  }

  ghost predicate Distinct(ks: seq<Bytes>) {
    forall i, j :: 0 <= i < j < |ks| ==> ks[i] != ks[j]
  }

  /** The slot of `key`; the length if there is none. */
  function Find<V>(s: seq<Slot<V>>, key: Bytes): (i: nat)
    ensures i <= |s|
    ensures i < |s| ==> s[i].key == key
    ensures forall j :: 0 <= j < i ==> s[j].key != key
  {
    if s == [] || s[0].key == key then 0 else 1 + Find(s[1..], key)
  }

  function MoveToFront<V>(s: seq<Slot<V>>, i: nat): seq<Slot<V>>
    requires i < |s|
  {
    [s[i]] + s[..i] + s[i + 1..]
  }

  function Get<V>(s: seq<Slot<V>>, key: Bytes): (r: (seq<Slot<V>>, Option<V>)) {
    var i := Find(s, key);
    if i < |s| then (MoveToFront(s, i), Some(s[i].val)) else (s, None)
  }

  /** A lookup finds exactly what a slot holds under the key, and loses no slot. */
  lemma GetMeaning<V>(s: seq<Slot<V>>, key: Bytes, val: V)
    requires Distinct(Keys(s))
    ensures Get(s, key).1 == Some(val) <==> Slot(key, val) in s
    ensures multiset(Get(s, key).0) == multiset(s)
  {
    var i := Find(s, key);
    if n :| 0 <= n < |s| && s[n] == Slot(key, val) {
      assert Keys(s)[i] == Keys(s)[n];
    }
    if i < |s| {
      SplitAround(s, i);
    }
  }

  function Insert<V>(s: seq<Slot<V>>, key: Bytes, val: V, cap: nat): seq<Slot<V>>
    requires cap > 0
  {
    [Slot(key, val)] + if |s| >= cap then s[..|s| - 1] else s
  }

  function WithoutKey(ks: seq<Bytes>, key: Bytes): (r: seq<Bytes>)
    ensures forall k :: k in r <==> k in ks && k != key
  {
    if ks == [] then []
    else if ks[0] == key then WithoutKey(ks[1..], key)
    else [ks[0]] + WithoutKey(ks[1..], key)
  }

  /** The distinct keys of a history (latest use first), each at its latest use. */
  function Recency(history: seq<Bytes>): seq<Bytes> {
    if history == [] then []
    else [history[0]] + WithoutKey(Recency(history[1..]), history[0])
  }

  // ---------- runs ----------

  datatype Use<+V> = Fetch(key: Bytes) | Store(key: Bytes, val: V)

  datatype State<V> = State(slots: seq<Slot<V>>, history: seq<Bytes>)

  /** The table code stores a block only after the lookup of its key has missed. */
  predicate Allowed<V>(st: State<V>, op: Use<V>) {
    op.Store? ==> op.key !in Keys(st.slots)
  }

  // Hits and stores are uses; a miss is not.
  function Step<V>(st: State<V>, op: Use<V>, cap: nat): State<V>
    requires cap > 0
  {
    match op
    case Fetch(k) =>
      if Find(st.slots, k) < |st.slots| then State(Get(st.slots, k).0, [k] + st.history) else st
    case Store(k, v) => State(Insert(st.slots, k, v, cap), [k] + st.history)
  }

  ghost predicate AllAllowed<V>(st: State<V>, ops: seq<Use<V>>, cap: nat)
    requires cap > 0
    decreases |ops|
  {
    ops != [] ==> Allowed(st, ops[0]) && AllAllowed(Step(st, ops[0], cap), ops[1..], cap)
  }

  function Run<V>(st: State<V>, ops: seq<Use<V>>, cap: nat): State<V>
    requires cap > 0
    decreases |ops|
  {
    if ops == [] then st else Run(Step(st, ops[0], cap), ops[1..], cap)
  }

  function Take<T>(s: seq<T>, n: nat): seq<T> {
    if n < |s| then s[..n] else s
  }

  /** The cache holds exactly the `cap` most recently used keys, most recent first. */
  ghost predicate HoldsMostRecent<V>(st: State<V>, cap: nat) {
    Keys(st.slots) == Take(Recency(st.history), cap)
  }

  lemma {:induction false} WithoutAbsent(ks: seq<Bytes>, key: Bytes)
    requires key !in ks
    ensures WithoutKey(ks, key) == ks
  {
    if ks != [] {
      WithoutAbsent(ks[1..], key);
    }
  }

  lemma {:induction false} WithoutAt(ks: seq<Bytes>, key: Bytes, i: nat)
    requires Distinct(ks) && i < |ks| && ks[i] == key
    ensures WithoutKey(ks, key) == ks[..i] + ks[i + 1..]
    decreases i
  {
    if i == 0 {
      WithoutAbsent(ks[1..], key);
    } else {
      WithoutAt(ks[1..], key, i - 1);
      assert ks[..i] + ks[i + 1..] == [ks[0]] + (ks[1..][..i - 1] + ks[1..][i..]);
    }
  }

  lemma DistinctCons(k: Bytes, ks: seq<Bytes>)
    requires Distinct(ks) && k !in ks
    ensures Distinct([k] + ks)
  {
    var all := [k] + ks;
    forall i, j | 0 <= i < j < |all| ensures all[i] != all[j] {
      assert all[j] == ks[j - 1];
    }
  }

  lemma {:induction false} WithoutDistinct(ks: seq<Bytes>, key: Bytes)
    requires Distinct(ks)
    ensures Distinct(WithoutKey(ks, key))
  {
    if ks != [] {
      WithoutDistinct(ks[1..], key);
      if ks[0] != key {
        DistinctCons(ks[0], WithoutKey(ks[1..], key));
      }
    }
  }

  lemma {:induction false} RecencyDistinct(history: seq<Bytes>)
    ensures Distinct(Recency(history))
  {
    if history != [] {
      RecencyDistinct(history[1..]);
      WithoutDistinct(Recency(history[1..]), history[0]);
      DistinctCons(history[0], WithoutKey(Recency(history[1..]), history[0]));
    }
  }

  lemma FetchKeepsMostRecent<V>(st: State<V>, k: Bytes, cap: nat)
    requires cap > 0 && HoldsMostRecent(st, cap)
    ensures HoldsMostRecent(Step(st, Fetch(k), cap), cap)
  {
    var i := Find(st.slots, k);
    if i < |st.slots| {
      var rec := Recency(st.history);
      RecencyDistinct(st.history);
      assert Keys(st.slots)[i] == rec[i];
      WithoutAt(rec, k, i);
      assert ([k] + st.history)[1..] == st.history;
      var all := [k] + (rec[..i] + rec[i + 1..]);
      assert Recency([k] + st.history) == all;
      var moved := MoveToFront(st.slots, i);
      forall j | 0 <= j < |moved| ensures Keys(moved)[j] == all[j] {
        assert Keys(st.slots)[if j == 0 then i else if j <= i then j - 1 else j] == all[j];
      }
    }
  }

  // Only the part of `rec` in front of position `cap - 1` matters after a store.
  lemma TakeAfterStore<T>(ks: seq<T>, rec: seq<T>, rest: seq<T>, k: T, cap: nat)
    requires cap > 0 && ks == Take(rec, cap)
    requires rest == rec || exists i :: |ks| <= i < |rec| && rest == rec[..i] + rec[i + 1..]
    ensures Take([k] + rest, cap) == [k] + if |ks| >= cap then ks[..|ks| - 1] else ks
  {
  }

  lemma RemovedBehind(ks: seq<Bytes>, rec: seq<Bytes>, k: Bytes, cap: nat)
    requires Distinct(rec) && ks == Take(rec, cap) && k !in ks
    ensures var rest := WithoutKey(rec, k);
            rest == rec || exists i :: |ks| <= i < |rec| && rest == rec[..i] + rec[i + 1..]
  {
    if k in rec {
      var i :| 0 <= i < |rec| && rec[i] == k;
      assert forall j :: 0 <= j < |ks| ==> rec[j] == ks[j];
      WithoutAt(rec, k, i);
    } else {
      WithoutAbsent(rec, k);
    }
  }

  lemma StoreKeepsMostRecent<V>(st: State<V>, k: Bytes, v: V, cap: nat)
    requires cap > 0 && HoldsMostRecent(st, cap) && k !in Keys(st.slots)
    ensures HoldsMostRecent(Step(st, Store(k, v), cap), cap)
  {
    RecencyDistinct(st.history);
    hide Recency, Distinct, WithoutKey;
    var rec := Recency(st.history);
    var ks := Keys(st.slots);
    RemovedBehind(ks, rec, k, cap);
    TakeAfterStore(ks, rec, WithoutKey(rec, k), k, cap);
    RecencyOfUse(k, st.history);
    assert Keys(Insert(st.slots, k, v, cap)) == [k] + if |ks| >= cap then ks[..|ks| - 1] else ks;
  }

  lemma RecencyOfUse(k: Bytes, history: seq<Bytes>)
    ensures Recency([k] + history) == [k] + WithoutKey(Recency(history), k)
  {
    assert ([k] + history)[1..] == history;
  }

  /** A hit moves the key to the front and keeps the order of the others. */
  lemma HitOrder<V>(s: seq<Slot<V>>, key: Bytes)
    requires Distinct(Keys(s)) && Find(s, key) < |s|
    ensures Keys(Get(s, key).0) == [key] + WithoutKey(Keys(s), key)
  {
    WithoutAt(Keys(s), key, Find(s, key));
    KeysOfMoved(s, Find(s, key));
    hide Keys, MoveToFront, WithoutKey, Find, Distinct;
  }

  lemma KeysOfMoved<V>(s: seq<Slot<V>>, i: nat)
    requires i < |s|
    ensures Keys(MoveToFront(s, i)) == [s[i].key] + (Keys(s)[..i] + Keys(s)[i + 1..])
  {
    MovedFrom(s, i);
    MovedFrom(Keys(s), i);
  }

  /** Storing an absent key puts it in front of the others, the last of which goes when there is no room. */
  lemma StoreOrder<V>(s: seq<Slot<V>>, key: Bytes, val: V, cap: nat)
    requires 0 < cap && |s| <= cap && Find(s, key) == |s|
    ensures Keys(Insert(s, key, val, cap)) == Take([key] + WithoutKey(Keys(s), key), cap)
  {
    WithoutAbsent(Keys(s), key);
    hide WithoutKey, Find;
  }

  /**
   Over every run from an empty cache, the cache holds the `cap` most recently used distinct keys
   in order of use; so the key a full cache gives up is the one used least recently.
   */
  lemma {:induction false} RunKeepsMostRecent<V>(st: State<V>, ops: seq<Use<V>>, cap: nat)
    requires cap > 0 && HoldsMostRecent(st, cap) && AllAllowed(st, ops, cap)
    ensures HoldsMostRecent(Run(st, ops, cap), cap)
    ensures |Run(st, ops, cap).slots| <= cap
    decreases |ops|
  {
    assert |Keys(st.slots)| <= cap;
    if ops != [] {
      match ops[0] {
        case Fetch(k) => FetchKeepsMostRecent(st, k, cap);
        case Store(k, v) => StoreKeepsMostRecent(st, k, v, cap);
      }
      RunKeepsMostRecent(Step(st, ops[0], cap), ops[1..], cap);
    }
  }

  // ---------- the values ----------

  /** The value last stored under a key, if any was. */
  function LastStored<V>(ops: seq<Use<V>>, key: Bytes): Option<V> {
    if ops == [] then None
    else
      var later := LastStored(ops[1..], key);
      if later.Some? then later
      else if ops[0].Store? && ops[0].key == key then Some(ops[0].val)
      else None
  }

  // A slot after one step was there before, or was stored by that step in place of nothing.
  lemma StepOrigin<V>(st: State<V>, op: Use<V>, cap: nat, s: Slot<V>)
    requires cap > 0 && Allowed(st, op) && s in Step(st, op, cap).slots
    ensures if op.Store? && op.key == s.key then s.val == op.val else s in st.slots
  {
    if op.Store? && s in st.slots {
      var n :| 0 <= n < |st.slots| && st.slots[n] == s;
      assert Keys(st.slots)[n] == s.key;
    }
  }

  /** Over every run, whatever a slot holds is what was last stored under its key. */
  lemma {:induction false} RunHoldsLastStored<V>(st: State<V>, ops: seq<Use<V>>, cap: nat, s: Slot<V>)
    requires cap > 0 && AllAllowed(st, ops, cap) && s in Run(st, ops, cap).slots
    ensures var last := LastStored(ops, s.key);
            if last.Some? then s.val == last.value else s in st.slots
    decreases |ops|
  {
    hide Step;
    if ops != [] {
      RunHoldsLastStored(Step(st, ops[0], cap), ops[1..], cap, s);
      if LastStored(ops[1..], s.key).None? {
        StepOrigin(st, ops[0], cap, s);
      }
    }
  }
}

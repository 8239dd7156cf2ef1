/**
 Looking a key up by separators versus looking it up in the whole list.
 */
module Separation {
  import opened Bytes
  import opened Build

  /** `seps[i]` is the index key of block `i`, as in a finished table. */
  ghost predicate SeparatedBy(bs: seq<seq<Entry>>, seps: seq<Bytes>) {
    BlocksOk(bs) && |seps| == |bs| && forall i :: 0 <= i < |bs| ==> SepOk(bs, i, seps[i])
  }

  /** `key` is the first key of a block, and is the key before it followed by a zero byte. */
  ghost predicate Boundary(bs: seq<seq<Entry>>, key: Bytes) {
    exists i :: 0 <= i < |bs| - 1 && BoundaryAt(bs, i, key)
  }

  ghost predicate BoundaryAt(bs: seq<seq<Entry>>, i: nat, key: Bytes)
    requires i < |bs| - 1
  {
    bs[i] != [] && bs[i + 1] != [] && key == FirstKey(bs[i + 1]) == LastKey(bs[i]) + [0]
  }

  lemma {:induction false} InFlatten(bs: seq<seq<Entry>>, e: Entry)
    ensures e in Flatten(bs) <==> exists j :: 0 <= j < |bs| && e in bs[j]
    decreases |bs|
  {
    if bs != [] {
      var n := |bs| - 1;
      InFlatten(bs[..n], e);
      assert forall j :: 0 <= j < n ==> bs[..n][j] == bs[j];
    }
  }

  // Within a block every key lies between the first and the last.
  lemma WithinBlock(b: seq<Entry>, m: nat)
    requires Sorted(b) && m < |b|
    ensures Le(FirstKey(b), b[m].key) && Le(b[m].key, LastKey(b))
    ensures b[m].key == FirstKey(b) ==> m == 0
  {
    TotalOrder(FirstKey(b), b[m].key, LastKey(b));
    TotalOrder(b[m].key, LastKey(b), LastKey(b));
    CmpEqual(FirstKey(b), FirstKey(b));
    CmpEqual(LastKey(b), LastKey(b));
  }

  /** Separators are strictly increasing, which is what the index block's builder demands. */
  lemma {:induction false} SepsIncrease(bs: seq<seq<Entry>>, seps: seq<Bytes>, i: nat, j: nat)
    requires SeparatedBy(bs, seps) && i < j < |bs|
    ensures Lt(seps[i], seps[j])
    decreases j
  {
    assert SepOk(bs, j - 1, seps[j - 1]) && SepOk(bs, j, seps[j]);
    WithinBlock(bs[j], 0);
    TotalOrder(seps[j - 1], FirstKey(bs[j]), LastKey(bs[j]));
    TotalOrder(seps[j - 1], LastKey(bs[j]), seps[j]);
    if i < j - 1 {
      SepsIncrease(bs, seps, i, j - 1);
      TotalOrder(seps[i], seps[j - 1], seps[j]);
    }
  }

  /** Keys of the blocks up to `i` are below separator `i`. */
  lemma KeyBelow(bs: seq<seq<Entry>>, seps: seq<Bytes>, j: nat, m: nat, i: nat)
    requires SeparatedBy(bs, seps) && j <= i < |bs| && m < |bs[j]|
    ensures Lt(bs[j][m].key, seps[i])
  {
    assert SepOk(bs, j, seps[j]);
    WithinBlock(bs[j], m);
    TotalOrder(bs[j][m].key, LastKey(bs[j]), seps[j]);
    if j < i {
      SepsIncrease(bs, seps, j, i);
      TotalOrder(bs[j][m].key, seps[j], seps[i]);
    }
  }

  /** Keys of later blocks are at least separator `i`, and equal only at a boundary. */
  lemma KeyAbove(bs: seq<seq<Entry>>, seps: seq<Bytes>, j: nat, m: nat, i: nat)
    requires SeparatedBy(bs, seps) && i < j < |bs| && m < |bs[j]|
    ensures Le(seps[i], bs[j][m].key)
    ensures bs[j][m].key == seps[i] ==> BoundaryAt(bs, i, seps[i]) && j == i + 1 && m == 0
  {
    var k := bs[j][m].key;
    assert SepOk(bs, j - 1, seps[j - 1]);
    WithinBlock(bs[j], m);
    TotalOrder(seps[j - 1], FirstKey(bs[j]), k);
    TotalOrder(k, FirstKey(bs[j]), seps[j - 1]);
    if i < j - 1 {
      SepsIncrease(bs, seps, i, j - 1);
      TotalOrder(seps[i], seps[j - 1], k);
      TotalOrder(k, k, k);
    }
  }

  // The block in which a lookup of `key` should go on: the first separator at or above it.
  ghost predicate Chosen(bs: seq<seq<Entry>>, seps: seq<Bytes>, key: Bytes, i: nat)
    requires |seps| == |bs|
  {
    i <= |bs| && (i > 0 ==> Lt(seps[i - 1], key)) && (i < |bs| ==> Le(key, seps[i]))
  }

  // An entry with the key sits in the chosen block, unless the key is the separator itself.
  lemma WhereKeyIs(bs: seq<seq<Entry>>, seps: seq<Bytes>, key: Bytes, i: nat, j: nat, m: nat)
    requires SeparatedBy(bs, seps) && Chosen(bs, seps, key, i)
    requires j < |bs| && m < |bs[j]| && bs[j][m].key == key
    ensures j == i || (j == i + 1 && key == seps[i] && BoundaryAt(bs, i, key))
  {
    TotalOrder(key, key, key);
    if j < i {
      KeyBelow(bs, seps, j, m, i - 1);
      TotalOrder(key, seps[i - 1], key);
    } else if j > i {
      KeyAbove(bs, seps, j, m, i);
      TotalOrder(key, seps[i], key);
    }
  }

  lemma BoundaryIsSeparator(bs: seq<seq<Entry>>, seps: seq<Bytes>, i: nat, key: Bytes)
    requires SeparatedBy(bs, seps) && i < |bs| - 1 && BoundaryAt(bs, i, key)
    ensures seps[i] == key
  {
    assert SepOk(bs, i, seps[i]);
  }

  /** A boundary key is chosen to be in the block before its own, and no other key of a block is. */
  lemma BoundaryIsBeforeItsBlock(bs: seq<seq<Entry>>, seps: seq<Bytes>, key: Bytes, i: nat, j: nat, m: nat)
    requires SeparatedBy(bs, seps) && Chosen(bs, seps, key, i)
    requires j < |bs| && m < |bs[j]| && bs[j][m].key == key
    ensures j == if Boundary(bs, key) then i + 1 else i
  {
    WhereKeyIs(bs, seps, key, i, j, m);
    if Boundary(bs, key) {
      var b :| 0 <= b < |bs| - 1 && BoundaryAt(bs, b, key);
      BoundaryIsSeparator(bs, seps, b, key);
      WhereKeyIs(bs, seps, key, i, b + 1, 0);
      TotalOrder(key, key, key);
      if j == i {
        KeyBelow(bs, seps, i, m, i);
      }
    }
  }

  // Below its separator, the chosen block holds every entry with the key.
  lemma MembersInChosen(bs: seq<seq<Entry>>, seps: seq<Bytes>, e: Entry, i: nat)
    requires SeparatedBy(bs, seps) && Chosen(bs, seps, e.key, i)
    requires i < |bs| && Lt(e.key, seps[i])
    ensures e in Flatten(bs) <==> e in bs[i]
  {
    assert |seps| == |bs|;
    hide Flatten, SeparatedBy, Cmp;
    TotalOrder(e.key, seps[i], e.key);
    InFlatten(bs, e);
    if e in Flatten(bs) {
      var j :| 0 <= j < |bs| && e in bs[j];
      var m :| 0 <= m < |bs[j]| && bs[j][m] == e;
      WhereKeyIs(bs, seps, e.key, i, j, m);
    }
  }

  lemma NoBoundaryBelow(bs: seq<seq<Entry>>, seps: seq<Bytes>, key: Bytes, i: nat)
    requires SeparatedBy(bs, seps) && Chosen(bs, seps, key, i)
    requires i < |bs| && Lt(key, seps[i])
    ensures !Boundary(bs, key)
  {
    assert |seps| == |bs|;
    hide SeparatedBy, Cmp;
    TotalOrder(key, seps[i], key);
    forall j | 0 <= j < |bs| - 1 ensures !BoundaryAt(bs, j, key) {
      if BoundaryAt(bs, j, key) {
        BoundaryIsSeparator(bs, seps, j, key);
        WhereKeyIs(bs, seps, key, i, j + 1, 0);
      }
    }
  }

  /** Below its separator, the chosen block alone decides the lookup. */
  lemma LookupInChosen(bs: seq<seq<Entry>>, seps: seq<Bytes>, key: Bytes, i: nat)
    requires SeparatedBy(bs, seps) && Chosen(bs, seps, key, i) && Sorted(Flatten(bs))
    requires i < |bs| && Lt(key, seps[i])
    ensures Lookup(Flatten(bs), key) == Lookup(bs[i], key)
    ensures !Boundary(bs, key)
  {
    assert Sorted(bs[i]);
    hide SeparatedBy, Chosen, Sorted, Flatten, Lookup, Boundary, Cmp;
    NoBoundaryBelow(bs, seps, key, i);
    forall v: Bytes ensures Entry(key, v) in Flatten(bs) <==> Entry(key, v) in bs[i] {
      MembersInChosen(bs, seps, Entry(key, v), i);
    }
    SameMembersSameLookup(Flatten(bs), bs[i], key);
  }

  lemma SameMembersSameLookup(a: seq<Entry>, b: seq<Entry>, key: Bytes)
    requires Sorted(a) && Sorted(b)
    requires forall v :: Entry(key, v) in a <==> Entry(key, v) in b
    ensures Lookup(a, key) == Lookup(b, key)
  {
    if Lookup(a, key).Some? {
      LookupMeaning(a, key, Lookup(a, key).value);
      LookupMeaning(b, key, Lookup(a, key).value);
    } else if Lookup(b, key).Some? {
      LookupMeaning(a, key, Lookup(b, key).value);
      LookupMeaning(b, key, Lookup(b, key).value);
    }
  }

  /** At the separator, or behind all of them, the key is present exactly at a boundary. */
  lemma LookupAtSeparator(bs: seq<seq<Entry>>, seps: seq<Bytes>, key: Bytes, i: nat)
    requires SeparatedBy(bs, seps) && Chosen(bs, seps, key, i) && Sorted(Flatten(bs))
    requires i == |bs| || key == seps[i]
    ensures Lookup(Flatten(bs), key).Some? <==> Boundary(bs, key)
  {
    var es := Flatten(bs);
    LookupMeaning(es, key, []);
    if Lookup(es, key).Some? {
      var v := Lookup(es, key).value;
      LookupMeaning(es, key, v);
      InFlatten(bs, Entry(key, v));
      var j :| 0 <= j < |bs| && Entry(key, v) in bs[j];
      var m :| 0 <= m < |bs[j]| && bs[j][m] == Entry(key, v);
      WhereKeyIs(bs, seps, key, i, j, m);
      if j == i {
        KeyBelow(bs, seps, i, m, i);
        TotalOrder(key, key, key);
      }
    }
    if Boundary(bs, key) {
      var j :| 0 <= j < |bs| - 1 && BoundaryAt(bs, j, key);
      InFlatten(bs, bs[j + 1][0]);
      assert bs[j + 1][0] in bs[j + 1];
      LookupMeaning(es, key, bs[j + 1][0].val);
    }
  }
}

/**
 Byte strings and their lexicographic order, shared by every other module.
 */
module Bytes {

  type byte = b: int | 0 <= b < 256
  type Bytes = seq<byte>

  const U32: int := 0x1_0000_0000
  const U64: int := 0x1_0000_0000_0000_0000

  datatype Option<+T> = None | Some(value: T)

  datatype StatusCode = Corruption | InvalidData | CompressionError

  datatype Result<+T> = Ok(value: T) | Err(code: StatusCode)

  /** One (key, value) pair of a block or a table. */
  datatype Entry = Entry(key: Bytes, val: Bytes)

  datatype Ordering = Less | Equal | Greater

  /** `DefaultCmp::cmp`: the lexicographic order of byte slices. */
  function Cmp(a: Bytes, b: Bytes): Ordering {
    if a == [] then (if b == [] then Equal else Less)
    else if b == [] then Greater
    else if a[0] < b[0] then Less
    else if a[0] > b[0] then Greater
    else Cmp(a[1..], b[1..])
  }

  predicate Lt(a: Bytes, b: Bytes) {
    Cmp(a, b) == Less
  }

  predicate Le(a: Bytes, b: Bytes) {
    Cmp(a, b) != Greater
  }

  // `p` is where `a` first falls below `b`: they agree before `p`, and then `a` ends or is smaller.
  ghost predicate FallsBelowAt(a: Bytes, b: Bytes, p: nat) {
    && p <= |a| && p < |b|
    && a[..p] == b[..p]
    && (p == |a| || a[p] < b[p])
  }

  lemma {:induction false} LtIntro(a: Bytes, b: Bytes, p: nat)
    requires FallsBelowAt(a, b, p)
    ensures Lt(a, b)
    decreases p
  {
    if p > 0 {
      assert a[0] == a[..p][0] == b[..p][0] == b[0];
      assert a[1..][..p-1] == a[..p][1..] == b[..p][1..] == b[1..][..p-1];
      LtIntro(a[1..], b[1..], p - 1);
    }
  }

  lemma {:induction false} LtElim(a: Bytes, b: Bytes) returns (p: nat)
    requires Lt(a, b)
    ensures FallsBelowAt(a, b, p)
    decreases |a|
  {
    if a == [] || a[0] != b[0] {
      p := 0;
    } else {
      var q := LtElim(a[1..], b[1..]);
      p := q + 1;
      assert a[..p] == [a[0]] + a[1..][..q];
      assert b[..p] == [b[0]] + b[1..][..q];
    }
  }

  lemma {:induction false} CmpEqual(a: Bytes, b: Bytes)
    ensures Cmp(a, b) == Equal <==> a == b
    decreases |a|
  {
    if a != [] && b != [] {
      CmpEqual(a[1..], b[1..]);
      assert a == [a[0]] + a[1..] && b == [b[0]] + b[1..];
    }
  }

  lemma {:induction false} CmpFlip(a: Bytes, b: Bytes)
    ensures Cmp(a, b) == Less <==> Cmp(b, a) == Greater
    ensures Cmp(a, b) == Equal <==> Cmp(b, a) == Equal
    decreases |a|
  {
    if a != [] && b != [] {
      CmpFlip(a[1..], b[1..]);
    }
  }

  lemma {:induction false} LtTrans(a: Bytes, b: Bytes, c: Bytes)
    requires Lt(a, b) && Lt(b, c)
    ensures Lt(a, c)
    decreases |a|
  {
    if a != [] && a[0] == b[0] && b[0] == c[0] {
      LtTrans(a[1..], b[1..], c[1..]);
    }
  }

  /** The facts about `Cmp` that clients use, for three strings at once: a total order. */
  lemma TotalOrder(a: Bytes, b: Bytes, c: Bytes)
    ensures Lt(a, b) || a == b || Lt(b, a)
    ensures !(Lt(a, b) && Lt(b, a)) && !Lt(a, a)
    ensures Le(a, b) <==> !Lt(b, a)
    ensures Lt(a, b) && Le(b, c) ==> Lt(a, c)
    ensures Le(a, b) && Lt(b, c) ==> Lt(a, c)
    ensures Le(a, b) && Le(b, c) ==> Le(a, c)
  {
    CmpEqual(a, b);
    CmpEqual(b, c);
    CmpEqual(a, c);
    CmpEqual(a, a);
    CmpFlip(a, b);
    CmpFlip(b, c);
    CmpFlip(a, c);
    if Lt(a, b) && Lt(b, c) {
      LtTrans(a, b, c);
    }
  }

  /** Length of the longest common prefix. */
  function Lcp(a: Bytes, b: Bytes): (n: nat)
    ensures n <= |a| && n <= |b|
    ensures a[..n] == b[..n]
    ensures n < |a| && n < |b| ==> a[n] != b[n]
  {
    if a == [] || b == [] || a[0] != b[0] then 0
    else
      var n := Lcp(a[1..], b[1..]);
      assert a[..n + 1] == [a[0]] + a[1..][..n];
      assert b[..n + 1] == [b[0]] + b[1..][..n];
      n + 1
  }

  lemma LcpUnique(a: Bytes, b: Bytes, n: nat)
    requires n <= |a| && n <= |b|
    requires a[..n] == b[..n]
    requires n < |a| && n < |b| ==> a[n] != b[n]
    ensures n == Lcp(a, b)
  {
    var m := Lcp(a, b);
    assert forall i :: 0 <= i < n ==> a[i] == a[..n][i] == b[..n][i] == b[i];
    assert forall i :: 0 <= i < m ==> a[i] == a[..m][i] == b[..m][i] == b[i];
  }

  /** Keys are strictly increasing, as `TableBuilder::add` demands. */
  ghost predicate Sorted(es: seq<Entry>) {
    forall i, j :: 0 <= i < j < |es| ==> Lt(es[i].key, es[j].key)
  }

  ghost predicate NonEmptyKeys(es: seq<Entry>) {
    forall i :: 0 <= i < |es| ==> es[i].key != []
  }

  /** Adding an entry above the last one keeps a list sorted. */
  lemma SortedSnoc(es: seq<Entry>, e: Entry)
    requires Sorted(es)
    requires es != [] ==> Lt(es[|es| - 1].key, e.key)
    ensures Sorted(es + [e])
  {
    forall i, j | 0 <= i < j < |es + [e]| ensures Lt((es + [e])[i].key, (es + [e])[j].key) {
      if j == |es| && i < |es| - 1 {
        LtTrans(es[i].key, es[|es| - 1].key, e.key);
      }
    }
  }

  /** Ordinal of the first entry whose key is at least `to`; the length if there is none. */
  function LowerBound(es: seq<Entry>, to: Bytes): (i: nat)
    ensures i <= |es|
    ensures forall j :: 0 <= j < i ==> Lt(es[j].key, to)
    ensures i < |es| ==> !Lt(es[i].key, to)
  {
    if es == [] || !Lt(es[0].key, to) then 0 else 1 + LowerBound(es[1..], to)
  }

  /** What a sorted map holding `es` answers for `key`. */
  function Lookup(es: seq<Entry>, key: Bytes): Option<Bytes> {
    if es == [] then None
    else if es[0].key == key then Some(es[0].val)
    else Lookup(es[1..], key)
  }

  /** `Lookup` answers `Some(v)` exactly when the pair is in the (sorted) list. */
  lemma {:induction false} LookupMeaning(es: seq<Entry>, key: Bytes, v: Bytes)
    requires Sorted(es)
    ensures Lookup(es, key) == Some(v) <==> Entry(key, v) in es
    ensures Lookup(es, key) == None <==> forall i :: 0 <= i < |es| ==> es[i].key != key
  {
    if es != [] {
      LookupMeaning(es[1..], key, v);
      assert forall i :: 1 <= i < |es| ==> es[i] == es[1..][i - 1] && Lt(es[0].key, es[i].key);
      TotalOrder(key, key, key);
      assert es == [es[0]] + es[1..];
    }
  }

  /** The entry at the lower bound decides a lookup. */
  lemma LookupAtLowerBound(es: seq<Entry>, key: Bytes)
    requires Sorted(es)
    ensures var i := LowerBound(es, key);
            Lookup(es, key) == if i < |es| && es[i].key == key then Some(es[i].val) else None
  {
    var i := LowerBound(es, key);
    forall j | 0 <= j < |es| ensures es[j].key == key ==> j == i {
      TotalOrder(key, key, key);
      if i < |es| {
        TotalOrder(key, es[i].key, es[j].key);
      }
    }
    if i < |es| && es[i].key == key {
      assert es[i] == Entry(key, es[i].val);
      LookupMeaning(es, key, es[i].val);
    } else {
      LookupMeaning(es, key, []);
    }
  }
}

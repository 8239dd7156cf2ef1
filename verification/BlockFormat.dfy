/**
 The bytes of a block: prefix-compressed entries, the restart array and its length.

 `BlockBytes` says which bytes a builder emits for a list of entries. `Layout` is what a reader
 relies on: where each entry starts, how much of its key is shared, which entries are restarts.
 `BuiltBlockHasLayout` connects the two.
 */
module BlockFormat {
  import opened Bytes
  import opened Codec
  import opened Seqs

  /** An entry whose key shares `shared` bytes with its predecessor. */
  function EntryBytes(shared: nat, e: Entry): (s: Bytes)
    requires shared <= |e.key|
    ensures |s| >= 3
  {
    EncodeVar(shared) + EncodeVar(|e.key| - shared) + EncodeVar(|e.val|) + e.key[shared..] + e.val
  }

  // ---------- what the builder emits ----------

  /** `restart_counter` after `n` additions with restart interval `r`. */
  function Counter(n: nat, r: nat): nat {
    if n == 0 then 0
    else if Counter(n - 1, r) < r then Counter(n - 1, r) + 1
    else 1
  }

  /** Entry `i` starts a new restart (the very first entry uses the restart present from the start). */
  predicate StartsRestart(i: nat, r: nat) {
    Counter(i, r) >= r
  }

  function Shared(es: seq<Entry>, i: nat, r: nat): (n: nat)
    requires i < |es|
    ensures n <= |es[i].key|
    ensures n > 0 ==> i > 0 && n <= |es[i - 1].key| && es[i - 1].key[..n] == es[i].key[..n]
  {
    if i == 0 || StartsRestart(i, r) then 0 else Lcp(es[i - 1].key, es[i].key)
  }

  function Data(es: seq<Entry>, r: nat): Bytes {
    if es == [] then []
    else
      var n := |es| - 1;
      Data(es[..n], r) + EntryBytes(Shared(es, n, r), es[n])
  }

  /** Ordinals of the restart entries. */
  function Restarts(n: nat, r: nat): (s: seq<nat>)
    ensures |s| >= 1
    ensures forall j :: 0 <= j < |s| ==> s[j] <= n
  {
    if n == 0 then [0]
    else Restarts(n - 1, r) + if StartsRestart(n - 1, r) then [n - 1] else []
  }

  function Offset(es: seq<Entry>, r: nat, i: nat): nat
    requires i <= |es|
  {
    |Data(es[..i], r)|
  }

  /** The restart array: byte offsets, cast to 32 bits. */
  function RestartWords(es: seq<Entry>, r: nat): (s: seq<nat>)
    ensures |s| == |Restarts(|es|, r)|
  {
    var rs := Restarts(|es|, r);
    seq(|rs|, j requires 0 <= j < |rs| => Offset(es, r, rs[j]) % U32)
  }

  function FixedWords(ws: seq<nat>): (s: Bytes)
    ensures |s| == 4 * |ws|
  {
    if ws == [] then []
    else FixedWords(ws[..|ws| - 1]) + EncodeFixed(ws[|ws| - 1], 4)
  }

  function BlockBytes(es: seq<Entry>, r: nat): (s: Bytes)
    ensures |s| == |Data(es, r)| + 4 * |Restarts(|es|, r)| + 4
  {
    Data(es, r) + FixedWords(RestartWords(es, r)) + EncodeFixed(|RestartWords(es, r)|, 4)
  }

  lemma {:induction false} FixedWordAt(ws: seq<nat>, i: nat)
    requires i < |ws|
    ensures FixedWords(ws)[4 * i..4 * i + 4] == EncodeFixed(ws[i], 4)
    decreases |ws|
  {
    var n := |ws| - 1;
    if i < n {
      FixedWordAt(ws[..n], i);
      assert FixedWords(ws)[4 * i..4 * i + 4] == FixedWords(ws[..n])[4 * i..4 * i + 4];
    }
  }

  // ---------- adding one entry ----------

  lemma DataSnoc(es: seq<Entry>, e: Entry, r: nat)
    ensures Data(es + [e], r) == Data(es, r) + EntryBytes(Shared(es + [e], |es|, r), e)
  {
    assert (es + [e])[..|es|] == es;
  }

  lemma RestartWordsSnoc(es: seq<Entry>, e: Entry, r: nat)
    ensures RestartWords(es + [e], r)
         == RestartWords(es, r) + if StartsRestart(|es|, r) then [|Data(es, r)| % U32] else []
  {
    var all := es + [e];
    var rs := Restarts(|all|, r);
    assert all[..|es|] == es;
    forall j | 0 <= j < |Restarts(|es|, r)|
      ensures RestartWords(all, r)[j] == RestartWords(es, r)[j]
    {
      assert all[..rs[j]] == es[..rs[j]];
    }
  }

  // ---------- closed forms ----------

  /** With `r >= 1` the counter is the position within the current group of `r` entries. */
  lemma {:induction false} CounterClosedForm(n: nat, r: nat)
    requires r >= 1
    ensures n > 0 ==> Counter(n, r) == (n - 1) % r + 1
    ensures 0 <= Counter(n, r) <= r
    ensures StartsRestart(n, r) <==> n > 0 && n % r == 0
  {
    if n == 0 {
    } else {
      CounterClosedForm(n - 1, r);
      if n == 1 {
        assert 0 % r == 0;
        ModStep(0, r);
      } else {
        ModStep(n - 2, r);
        ModStep(n - 1, r);
      }
    }
  }

  lemma ModStep(n: nat, r: nat)
    requires r >= 1
    ensures (n + 1) % r == if n % r == r - 1 then 0 else n % r + 1
    ensures (n + 1) / r == if n % r == r - 1 then n / r + 1 else n / r
    ensures n % r == r - 1 ==> (n / r + 1) * r == n + 1
  {
    var q := n / r;
    assert n == q * r + n % r;
    if n % r == r - 1 {
      assert (q + 1) * r == q * r + r;
      ModOf(q + 1, r, 0);
    } else {
      ModOf(q, r, n % r + 1);
    }
  }

  /** Restart `j` is entry `j * r`, and there are max(1, ceil(n / r)) restarts. */
  lemma {:induction false} RestartsClosedForm(n: nat, r: nat)
    requires r >= 1
    ensures |Restarts(n, r)| == if n == 0 then 1 else (n - 1) / r + 1
    ensures forall j :: 0 <= j < |Restarts(n, r)| ==> Restarts(n, r)[j] == j * r
  {
    if n >= 2 {
      RestartsClosedForm(n - 1, r);
      RestartsStep(n, r);
    } else {
      ModOf(0, r, 0);
      assert n == 1 ==> Restarts(n, r) == Restarts(0, r);
    }
  }

  lemma RestartsStep(n: nat, r: nat)
    requires r >= 1 && n >= 2
    requires |Restarts(n - 1, r)| == (n - 2) / r + 1
    ensures |Restarts(n, r)| == (n - 1) / r + 1
    ensures Restarts(n, r) == Restarts(n - 1, r)
         || Restarts(n, r) == Restarts(n - 1, r) + [|Restarts(n - 1, r)| * r]
  {
    CounterClosedForm(n - 1, r);
    ModStep(n - 2, r);
  }

  /**
   The key bytes an entry leaves out: none where a group of `r` entries begins, and anywhere else all
   that it has in common with the key before, not one byte less.
   */
  lemma SharedIsLongest(es: seq<Entry>, i: nat, r: nat)
    requires r >= 1 && i < |es|
    ensures i % r == 0 ==> Shared(es, i, r) == 0
    ensures i % r != 0 ==>
              && i > 0
              && var prev, key, n := es[i - 1].key, es[i].key, Shared(es, i, r);
                 && n <= |prev| && n <= |key| && prev[..n] == key[..n]
                 && (n == |prev| || n == |key| || prev[n] != key[n])
  {
    CounterClosedForm(i, r);
    ModOf(0, r, 0);
  }

  /** A block without entries: one restart at 0. */
  lemma EmptyBlock(r: nat)
    ensures BlockBytes([], r) == [0, 0, 0, 0, 1, 0, 0, 0]
  {
    assert RestartWords([], r) == [0];
    assert [0][..0] == [] && FixedWords([0]) == EncodeFixed(0, 4);
    KnownWords();
  }

  lemma KnownWords()
    ensures EncodeFixed(0, 4) == [0, 0, 0, 0] && EncodeFixed(1, 4) == [1, 0, 0, 0]
  {
    assert EncodeFixed(0, 1) == [0];
    assert EncodeFixed(0, 2) == [0, 0];
    assert EncodeFixed(0, 3) == [0, 0, 0];
  }

  lemma DataOfTwo(a: Entry, b: Entry, r: nat)
    requires r > 1
    ensures Data([a, b], r) == EntryBytes(0, a) + EntryBytes(Lcp(a.key, b.key), b)
    ensures RestartWords([a, b], r) == [0]
  {
    hide EntryBytes, Lcp;
    assert Counter(1, r) == 1;
    assert Restarts(1, r) == [0] && Restarts(2, r) == [0];
    assert [a, b][..1] == [a] && [a][..0] == [] && [a, b][..0] == [];
    assert Data([a], r) == EntryBytes(0, a);
  }

  /** The pairs (key1, v1) and (key2, v2), the second entry sharing three bytes with the first. */
  lemma BlockOfTwo()
    ensures BlockBytes([Entry([107, 101, 121, 49], [118, 49]), Entry([107, 101, 121, 50], [118, 50])], 3)
         == [0, 4, 2, 107, 101, 121, 49, 118, 49] + [3, 1, 2, 50, 118, 50] + [0, 0, 0, 0] + [1, 0, 0, 0]
  {
    var a, b := Entry([107, 101, 121, 49], [118, 49]), Entry([107, 101, 121, 50], [118, 50]);
    DataOfTwo(a, b, 3);
    LcpUnique(a.key, b.key, 3);
    assert EntryBytes(0, a) == [0, 4, 2, 107, 101, 121, 49, 118, 49];
    assert EntryBytes(3, b) == [3, 1, 2, 50, 118, 50];
    assert [0][..0] == [] && FixedWords([0]) == EncodeFixed(0, 4);
    KnownWords();
    hide Data, EntryBytes, RestartWords, FixedWords, EncodeFixed, Lcp;
  }

  // ---------- what a reader relies on ----------

  datatype Layout = Layout(
    es: seq<Entry>,         // the entries
    offs: seq<nat>,         // entry i occupies [offs[i], offs[i + 1])
    shared: seq<nat>,       // how many key bytes entry i leaves out
    restarts: seq<nat>)     // ordinals of the restart entries
  {
    ghost predicate Shape() {
      && |offs| == |es| + 1
      && |shared| == |es|
      && |restarts| >= 1
      && offs[0] == 0
      && restarts[0] == 0
    }

    ghost predicate EntryOk(b: Bytes, i: nat)
      requires Shape() && i < |es|
    {
      && es[i].key != [] && |es[i].key| < U64
      && shared[i] <= |es[i].key|
      && (shared[i] > 0 ==>
            i > 0 && shared[i] <= |es[i - 1].key| && es[i - 1].key[..shared[i]] == es[i].key[..shared[i]])
      && offs[i + 1] == offs[i] + |EntryBytes(shared[i], es[i])|
      && offs[i + 1] <= |b|
      && b[offs[i]..offs[i + 1]] == EntryBytes(shared[i], es[i])
    }

    // `key`, the key assembled last, is what entry `i` needs to complete its own.
    ghost predicate KeyServes(i: nat, key: Bytes)
      requires Shape()
    {
      i < |es| && shared[i] > 0 ==> i > 0 && key == es[i - 1].key
    }

    predicate RestartKeyBelow(j: nat, to: Bytes)
      requires j < |restarts|
    {
      restarts[j] < |es| && Lt(es[restarts[j]].key, to)
    }

    // Restart j names entry `restarts[j]`, whose whole key is stored.
    ghost predicate RestartOk(b: Bytes, j: nat)
      requires Shape() && j < |restarts|
    {
      var at := offs[|es|] + 4 * j;
      && restarts[j] <= |es|
      && (|es| > 0 ==> restarts[j] < |es| && shared[restarts[j]] == 0)
      && at + 4 <= |b|
      && DecodeFixed(b[at..at + 4]) == offs[restarts[j]]
    }

    /** `b` is a block holding `es`. */
    ghost predicate Of(b: Bytes) {
      && Shape()
      && |b| == offs[|es|] + 4 * |restarts| + 4
      && |b| < U32
      && DecodeFixed(b[|b| - 4..]) == |restarts|
      && (forall i :: 0 <= i < |es| ==> EntryOk(b, i))
      && (forall i, j :: 0 <= i < j <= |es| ==> offs[i] < offs[j])
      && (forall j :: 0 <= j < |restarts| ==> RestartOk(b, j))
      && (forall i, j :: 0 <= i < j < |restarts| ==> restarts[i] < restarts[j])
    }
  }

  function LayoutOf(es: seq<Entry>, r: nat): Layout {
    Layout(
      es,
      seq(|es| + 1, i requires 0 <= i <= |es| => Offset(es, r, i)),
      seq(|es|, i requires 0 <= i < |es| => Shared(es, i, r)),
      Restarts(|es|, r))
  }

  lemma {:induction false} DataPrefix(es: seq<Entry>, r: nat, i: nat)
    requires i <= |es|
    ensures Data(es[..i], r) <= Data(es, r)
    decreases |es|
  {
    hide EntryBytes, Shared, EncodeVar;
    if i == |es| {
      assert es[..i] == es;
    } else {
      var n := |es| - 1;
      DataPrefix(es[..n], r, i);
      assert es[..n][..i] == es[..i];
    }
  }

  lemma DataEntry(es: seq<Entry>, r: nat, i: nat)
    requires i < |es|
    ensures var bytes := EntryBytes(Shared(es, i, r), es[i]);
            && Offset(es, r, i + 1) == Offset(es, r, i) + |bytes|
            && Offset(es, r, i + 1) <= |Data(es, r)|
            && Data(es, r)[Offset(es, r, i)..Offset(es, r, i + 1)] == bytes
  {
    var pre := es[..i + 1];
    assert pre[..i] == es[..i];
    assert Shared(pre, i, r) == Shared(es, i, r);
    DataPrefix(es, r, i + 1);
    var d := Data(es, r);
    assert d[..|Data(pre, r)|] == Data(pre, r);
    assert d[Offset(es, r, i)..Offset(es, r, i + 1)] == Data(pre, r)[Offset(es, r, i)..];
  }

  lemma {:induction false} Increasing(s: seq<nat>, i: nat, j: nat)
    requires forall k :: 0 <= k < |s| - 1 ==> s[k] < s[k + 1]
    requires i < j < |s|
    ensures s[i] < s[j]
    decreases j
  {
    if i < j - 1 {
      Increasing(s, i, j - 1);
    }
    assert s[j - 1] < s[j - 1 + 1];
  }

  lemma {:induction false} RestartsStartAtZero(n: nat, r: nat)
    ensures Restarts(n, r)[0] == 0
  {
    if n > 0 {
      RestartsStartAtZero(n - 1, r);
    }
  }

  lemma {:induction false} RestartsOrdered(n: nat, r: nat)
    requires r >= 1
    ensures Restarts(n, r)[0] == 0
    ensures n > 0 ==> forall j :: 0 <= j < |Restarts(n, r)| ==> Restarts(n, r)[j] < n
    ensures forall i, j :: 0 <= i < j < |Restarts(n, r)| ==> Restarts(n, r)[i] < Restarts(n, r)[j]
    ensures forall j :: 1 <= j < |Restarts(n, r)| ==> StartsRestart(Restarts(n, r)[j], r)
  {
    if n > 0 {
      RestartsOrdered(n - 1, r);
      CounterClosedForm(n - 1, r);
    }
  }

  lemma RestartWordAt(es: seq<Entry>, r: nat, j: nat)
    requires j < |Restarts(|es|, r)|
    ensures var b := BlockBytes(es, r);
            var at := |Data(es, r)| + 4 * j;
            at + 4 <= |b| && b[at..at + 4] == EncodeFixed(RestartWords(es, r)[j], 4)
  {
    hide EntryBytes, Shared, EncodeVar, EncodeFixed, Data, RestartWords, FixedWords, Restarts;
    var d, ws := Data(es, r), RestartWords(es, r);
    var tail := EncodeFixed(|ws|, 4);
    FixedWordAt(ws, j);
    SliceOfMiddle(d, FixedWords(ws), tail, 4 * j, 4 * j + 4);
  }

  lemma EmptyData(es: seq<Entry>, r: nat)
    ensures Offset(es, r, 0) == 0 && Offset(es, r, |es|) == |Data(es, r)|
  {
    assert es[..|es|] == es && es[..0] == [];
  }

  lemma RestartWordValue(es: seq<Entry>, r: nat, j: nat)
    requires |BlockBytes(es, r)| < U32
    requires j < |Restarts(|es|, r)|
    ensures var b := BlockBytes(es, r);
            var at := |Data(es, r)| + 4 * j;
            at + 4 <= |b| && DecodeFixed(b[at..at + 4]) == Offset(es, r, Restarts(|es|, r)[j])
  {
    hide EncodeVar, EncodeFixed, FixedWords, DecodeFixed, Data, Restarts;
    RestartWordAt(es, r, j);
    DataPrefix(es, r, Restarts(|es|, r)[j]);
    Fixed32RoundTrip(Offset(es, r, Restarts(|es|, r)[j]));
  }

  lemma BuiltRestart(es: seq<Entry>, r: nat, j: nat)
    requires r >= 1 && |BlockBytes(es, r)| < U32
    requires j < |Restarts(|es|, r)|
    ensures LayoutOf(es, r).Shape() && LayoutOf(es, r).RestartOk(BlockBytes(es, r), j)
  {
    hide EncodeVar, EncodeFixed, FixedWords, DecodeFixed, Data, Restarts, BlockBytes, Shared, Offset, EntryBytes;
    RestartsStartAtZero(|es|, r);
    EmptyData(es, r);
    RestartWordValue(es, r, j);
    var b := BlockBytes(es, r);
    if es != [] {
      SharedAtRestart(es, r, j);
    }
  }

  lemma SharedAtRestart(es: seq<Entry>, r: nat, j: nat)
    requires r >= 1 && j < |Restarts(|es|, r)| && es != []
    ensures Restarts(|es|, r)[j] < |es| && Shared(es, Restarts(|es|, r)[j], r) == 0
  {
    RestartsOrdered(|es|, r);
  }

  // A key is no longer than the data up to the end of its entry: what it shares came before.
  lemma {:induction false} KeyLength(es: seq<Entry>, r: nat, i: nat)
    requires i < |es|
    ensures |es[i].key| <= Offset(es, r, i + 1) <= |Data(es, r)|
  {
    hide EncodeVar;
    DataEntry(es, r, i);
    if i > 0 {
      KeyLength(es, r, i - 1);
    }
  }

  lemma BuiltEntry(es: seq<Entry>, r: nat, i: nat)
    requires NonEmptyKeys(es) && i < |es| && |BlockBytes(es, r)| < U32
    ensures LayoutOf(es, r).Shape() && LayoutOf(es, r).EntryOk(BlockBytes(es, r), i)
  {
    hide EncodeVar, EncodeFixed, FixedWords, Data;
    KeyLength(es, r, i);
    RestartsStartAtZero(|es|, r);
    EmptyData(es, r);
    DataEntry(es, r, i);
    var d, words := Data(es, r), RestartWords(es, r);
    SliceOfMiddle([], d, FixedWords(words) + EncodeFixed(|words|, 4), Offset(es, r, i), Offset(es, r, i + 1));
    assert BlockBytes(es, r) == [] + d + (FixedWords(words) + EncodeFixed(|words|, 4));
  }

  /** Whatever a builder emits for non-empty keys, below 4 GB, is a block a reader can use. */
  lemma BuiltBlockHasLayout(es: seq<Entry>, r: nat)
    requires r >= 1 && NonEmptyKeys(es) && |BlockBytes(es, r)| < U32
    ensures LayoutOf(es, r).Of(BlockBytes(es, r))
  {
    hide Data, EncodeVar, EntryBytes, Lcp, Counter, EncodeFixed, FixedWords, DecodeFixed, Restarts;
    var b := BlockBytes(es, r);
    var l := LayoutOf(es, r);
    EmptyData(es, r);
    RestartsOrdered(|es|, r);
    forall i | 0 <= i < |es| ensures l.EntryOk(b, i) && l.offs[i] < l.offs[i + 1] {
      BuiltEntry(es, r, i);
    }
    forall i, j | 0 <= i < j <= |es| ensures l.offs[i] < l.offs[j] {
      Increasing(l.offs, i, j);
    }
    forall j | 0 <= j < |l.restarts| ensures l.RestartOk(b, j) {
      BuiltRestart(es, r, j);
    }
    CountField(es, r);
  }

  lemma CountField(es: seq<Entry>, r: nat)
    requires |BlockBytes(es, r)| < U32
    ensures var b := BlockBytes(es, r); DecodeFixed(b[|b| - 4..]) == |Restarts(|es|, r)|
  {
    var b := BlockBytes(es, r);
    var n := |Restarts(|es|, r)|;
    assert b[|b| - 4..] == EncodeFixed(n, 4);
    Fixed32RoundTrip(n);
  }

  /** The three header fields of an entry, the stored key bytes and the value, as read back. */
  lemma ReadEntryAt(b: Bytes, o: nat, end: nat, shared: nat, e: Entry) returns (l1: nat, l2: nat, l3: nat)
    requires shared <= |e.key| < U64 && o <= end <= |b| < U32
    requires b[o..end] == EntryBytes(shared, e)
    ensures var nonShared := |e.key| - shared;
            var keyAt := o + l1 + l2 + l3;
            && l1 >= 1 && keyAt + nonShared + |e.val| == end
            && DecodeVar(b[o..]) == Some((shared, l1))
            && DecodeVar(b[o + l1..]) == Some((nonShared, l2))
            && DecodeVar(b[o + l1 + l2..]) == Some((|e.val|, l3))
            && b[keyAt..keyAt + nonShared] == e.key[shared..]
            && b[keyAt + nonShared..end] == e.val
  {
    hide EncodeVar, DecodeVar;
    var v1, v2, v3 := EncodeVar(shared), EncodeVar(|e.key| - shared), EncodeVar(|e.val|);
    l1, l2, l3 := |v1|, |v2|, |v3|;
    FiveParts(b, o, end, v1, v2, v3, e.key[shared..], e.val);
    VarAt(b, o, shared);
    VarAt(b, o + l1, |e.key| - shared);
    VarAt(b, o + l1 + l2, |e.val|);
  }

  /** `ReadEntryAt` for entry `i` of a block, with what completing the key needs. */
  lemma ReadEntry(b: Bytes, l: Layout, i: nat) returns (l1: nat, l2: nat, l3: nat)
    requires l.Of(b) && i < |l.es|
    ensures l.offs[i] < l.offs[i + 1] <= l.offs[|l.es|] <= |b|
    ensures var o, e, shared := l.offs[i], l.es[i], l.shared[i];
            var nonShared := |e.key| - shared;
            var keyAt := o + l1 + l2 + l3;
            && shared <= |e.key| && e.key != []
            && l1 >= 1 && keyAt + nonShared + |e.val| == l.offs[i + 1]
            && DecodeVar(b[o..]) == Some((shared, l1))
            && DecodeVar(b[o + l1..]) == Some((nonShared, l2))
            && DecodeVar(b[o + l1 + l2..]) == Some((|e.val|, l3))
            && b[keyAt..keyAt + nonShared] == e.key[shared..]
            && b[keyAt + nonShared..l.offs[i + 1]] == e.val
  {
    hide EncodeVar, DecodeVar, EntryBytes, DecodeFixed;
    assert l.EntryOk(b, i);
    assert i + 1 < |l.es| ==> l.offs[i + 1] < l.offs[|l.es|];
    l1, l2, l3 := ReadEntryAt(b, l.offs[i], l.offs[i + 1], l.shared[i], l.es[i]);
  }

  lemma SharedFits(b: Bytes, l: Layout, i: nat)
    requires l.Of(b) && i < |l.es|
    ensures l.es[i].key != [] && l.shared[i] <= |l.es[i].key|
    ensures l.shared[i] > 0 ==>
              && i > 0 && l.shared[i] <= |l.es[i - 1].key|
              && l.es[i - 1].key[..l.shared[i]] == l.es[i].key[..l.shared[i]]
  {
    assert l.EntryOk(b, i);
  }

  lemma FirstEntrySharesNothing(b: Bytes, l: Layout, key: Bytes)
    requires l.Of(b)
    ensures l.KeyServes(0, key)
  {
    if l.es != [] {
      SharedFits(b, l, 0);
    }
  }

  lemma OffsetsOrdered(l: Layout, b: Bytes, i: nat)
    requires l.Of(b) && i <= |l.es|
    ensures l.offs[i] <= l.offs[|l.es|] <= |b|
    ensures l.offs[i] == l.offs[|l.es|] <==> i == |l.es|
  {
  }

  lemma RestartFacts(l: Layout, b: Bytes, j: nat)
    requires l.Of(b) && j < |l.restarts|
    ensures l.restarts[j] <= |l.es|
    ensures l.es != [] ==> l.restarts[j] < |l.es| && l.shared[l.restarts[j]] == 0
    ensures var at := l.offs[|l.es|] + 4 * j;
            at + 4 <= |b| && DecodeFixed(b[at..at + 4]) == l.offs[l.restarts[j]]
  {
    assert l.RestartOk(b, j);
  }
}

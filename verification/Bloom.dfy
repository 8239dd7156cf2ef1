/**
 `BloomPolicy`: a 32-bit hash, and filters whose bits are set by double hashing.
 */
module Bloom {
  import opened Bytes
  import opened Codec

  // ---------- single bits of a byte ----------

  function BitMask(i: nat): bv8
    requires i < 8
  {
    (1 as bv8) << i
  }

  function ToBits(b: byte): bv8 {
    b as bv8
  }

  function FromBits(x: bv8): byte {
    x as int
  }

  function OrBit(b: byte, i: nat): byte
    requires i < 8
  {
    FromBits(ToBits(b) | BitMask(i))
  }

  predicate TestBit(b: byte, i: nat)
    requires i < 8
  {
    (ToBits(b) & BitMask(i)) != 0
  }

  lemma MaskValue(i: nat)
    requires i < 8
    ensures BitMask(i) ==
            match i case 0 => 1 case 1 => 2 case 2 => 4 case 3 => 8
                    case 4 => 16 case 5 => 32 case 6 => 64 case _ => 128
  {
    if i == 0 {} else if i == 1 {} else if i == 2 {} else if i == 3 {}
    else if i == 4 {} else if i == 5 {} else if i == 6 {} else {}
  }

  lemma OrThenAnd(x: bv8, p: bv8, q: bv8)
    requires p != 0 && (p == q || p & q == 0)
    ensures (x | p) & q != 0 <==> p == q || x & q != 0
  {
  }

  lemma OrMasks(x: bv8, i: nat, j: nat)
    requires i < 8 && j < 8
    ensures (x | BitMask(i)) & BitMask(j) != 0 <==> i == j || x & BitMask(j) != 0
  {
    MaskValue(i);
    MaskValue(j);
    hide BitMask;
    assert BitMask(i) != 0;
    assert i != j ==> BitMask(i) & BitMask(j) == 0;
    OrThenAnd(x, BitMask(i), BitMask(j));
  }

  lemma BitsRoundTrip(x: bv8)
    ensures ToBits(FromBits(x)) == x
  {
  }

  /** Or-ing in a bit sets that bit and no other. */
  lemma OrBitTest(b: byte, i: nat, j: nat)
    requires i < 8 && j < 8
    ensures TestBit(OrBit(b, i), j) <==> i == j || TestBit(b, j)
  {
    OrBitIs(b, i);
    TestBitIs(OrBit(b, i), j);
    TestBitIs(b, j);
    hide *;
    BitsRoundTrip(ToBits(b) | BitMask(i));
    OrMasks(ToBits(b), i, j);
  }

  lemma OrBitIs(b: byte, i: nat)
    requires i < 8
    ensures OrBit(b, i) == FromBits(ToBits(b) | BitMask(i))
  {
    hide BitMask, ToBits, FromBits;
  }

  lemma TestBitIs(b: byte, i: nat)
    requires i < 8
    ensures TestBit(b, i) == (ToBits(b) & BitMask(i) != 0)
  {
    hide BitMask, ToBits;
  }

  // ---------- the hash ----------

  const SEED: bv32 := 0xbc9f1d34
  const MULTIPLIER: bv32 := 0xc6a4a793

  function Word(data: Bytes, ix: nat): bv32
    requires ix + 4 <= |data|
  {
    Decode32Bound(data[ix..ix + 4]);
    DecodeFixed(data[ix..ix + 4]) as bv32
  }

  function MixWord(h: bv32, w: bv32): bv32 {
    var g := (h + w) * MULTIPLIER;
    g ^ (g >> 16)
  }

  // Adds left-over byte `i`.
  function AddByte(h: bv32, b: byte, i: nat): bv32
    requires i < 4
  {
    h + ((b as bv32) << (8 * i))
  }

  // Adds the bytes from `ix` on, the i-th shifted by 8 * i bits.
  function AddTail(data: Bytes, ix: nat, i: nat, h: bv32): bv32
    requires ix <= |data| && |data| - ix + i < 4
    decreases |data| - ix
  {
    if ix == |data| then h
    else AddTail(data, ix + 1, i + 1, AddByte(h, data[ix], i))
  }

  function FinishTail(h: bv32): bv32 {
    var g := h * MULTIPLIER;
    g ^ (g >> 24)
  }

  function HashFrom(data: Bytes, ix: nat, h: bv32): bv32
    requires ix <= |data|
    decreases |data| - ix
  {
    if ix + 4 <= |data| then HashFrom(data, ix + 4, MixWord(h, Word(data, ix)))
    else if ix < |data| then FinishTail(AddTail(data, ix, 0, h))
    else h
  }

  function HashStart(len: nat): bv32 {
    SEED ^ (((len % U32) as bv32) * MULTIPLIER)
  }

  function Hash(data: Bytes): bv32 {
    HashFrom(data, 0, HashStart(|data|))
  }

  /** `bloom_hash`. */
  method BloomHash(data: Bytes) returns (h: bv32)
    ensures h == Hash(data)
  {
    hide MixWord, Word, FinishTail, HashStart;
    var ix := 0;
    var limit := |data|;
    h := HashStart(limit);
    while ix + 4 <= limit
      invariant ix <= limit
      invariant HashFrom(data, ix, h) == Hash(data)
    {
      h := MixWord(h, Word(data, ix));
      ix := ix + 4;
    }
    assert limit - ix < 4;
    if limit - ix > 0 {
      h := HashTail(data, ix, h);
    }
  }

  // The left-over bytes of `BloomHash`.
  method HashTail(data: Bytes, ix: nat, start: bv32) returns (h: bv32)
    requires ix <= |data| && |data| - ix < 4
    ensures h == FinishTail(AddTail(data, ix, 0, start))
  {
    hide AddByte, FinishTail;
    h := start;
    var i := 0;
    while ix + i < |data|
      invariant ix + i <= |data|
      invariant AddTail(data, ix + i, i, h) == AddTail(data, ix, 0, start)
    {
      h := AddByte(h, data[ix + i], i);
      i := i + 1;
    }
    h := FinishTail(h);
  }

  // ---------- probes ----------

  function Delta(h: bv32): bv32 {
    (h >> 17) | (h << 15)
  }

  function NextProbe(h: bv32, delta: bv32): bv32 {
    h + delta
  }

  function Position(h: bv32, bits: nat): (pos: nat)
    requires bits > 0
    ensures pos < bits
  {
    (h as int) % bits
  }

  /** One of the `n` positions h, h + delta, h + 2 * delta, ... (modulo `bits`) is `pos`. */
  predicate Hits(h: bv32, delta: bv32, n: nat, bits: nat, pos: nat)
    requires bits > 0
    decreases n
  {
    n > 0 && (Position(h, bits) == pos || Hits(NextProbe(h, delta), delta, n - 1, bits, pos))
  }

  predicate KeyHits(key: Bytes, n: nat, bits: nat, pos: nat)
    requires bits > 0
  {
    Hits(Hash(key), Delta(Hash(key)), n, bits, pos)
  }

  predicate HasBit(f: Bytes, pos: nat)
    requires pos < 8 * |f|
  {
    TestBit(f[pos / 8], pos % 8)
  }

  function SetBit(f: Bytes, pos: nat): (g: Bytes)
    requires pos < 8 * |f|
    ensures |g| == |f|
  {
    f[pos / 8 := OrBit(f[pos / 8], pos % 8)]
  }

  lemma SetBitExact(f: Bytes, pos: nat, p: nat)
    requires pos < 8 * |f| && p < 8 * |f|
    ensures HasBit(SetBit(f, pos), p) <==> p == pos || HasBit(f, p)
  {
    hide TestBit, OrBit;
    OrBitTest(f[pos / 8], pos % 8, p % 8);
  }

  function AddProbes(f: Bytes, h: bv32, delta: bv32, n: nat, bits: nat): (g: Bytes)
    requires 0 < bits <= 8 * |f|
    ensures |g| == |f|
    decreases n
  {
    if n == 0 then f
    else AddProbes(SetBit(f, Position(h, bits)), NextProbe(h, delta), delta, n - 1, bits)
  }

  function AddKeys(f: Bytes, keys: seq<Bytes>, n: nat, bits: nat): (g: Bytes)
    requires 0 < bits <= 8 * |f|
    ensures |g| == |f|
  {
    if keys == [] then f
    else
      var key := keys[|keys| - 1];
      AddProbes(AddKeys(f, keys[..|keys| - 1], n, bits), Hash(key), Delta(Hash(key)), n, bits)
  }

  lemma {:induction false} AddProbesExact(f: Bytes, h: bv32, delta: bv32, n: nat, bits: nat, p: nat)
    requires 0 < bits <= 8 * |f| && p < 8 * |f|
    ensures HasBit(AddProbes(f, h, delta, n, bits), p) <==> HasBit(f, p) || Hits(h, delta, n, bits, p)
    decreases n
  {
    hide HasBit, SetBit, Position, NextProbe;
    if n > 0 {
      SetBitExact(f, Position(h, bits), p);
      AddProbesExact(SetBit(f, Position(h, bits)), NextProbe(h, delta), delta, n - 1, bits, p);
    }
  }

  /** After adding keys a bit is set exactly when it was set before or some key probes it. */
  lemma {:induction false} AddKeysExact(f: Bytes, keys: seq<Bytes>, n: nat, bits: nat, p: nat)
    requires 0 < bits <= 8 * |f| && p < 8 * |f|
    ensures HasBit(AddKeys(f, keys, n, bits), p)
       <==> HasBit(f, p) || exists i :: 0 <= i < |keys| && KeyHits(keys[i], n, bits, p)
    decreases |keys|
  {
    hide HasBit, Hits, Hash, Delta;
    if keys != [] {
      var m := |keys| - 1;
      var key := keys[m];
      AddKeysExact(f, keys[..m], n, bits, p);
      AddProbesExact(AddKeys(f, keys[..m], n, bits), Hash(key), Delta(Hash(key)), n, bits, p);
      assert KeyHits(keys[m], n, bits, p) == Hits(Hash(key), Delta(Hash(key)), n, bits, p);
      assert forall i :: 0 <= i < m ==> keys[..m][i] == keys[i];
    }
  }

  /** Bytes behind the addressed bits (the `k` byte at the end of a filter) stay as they are. */
  lemma {:induction false} AddProbesKeepsTail(f: Bytes, h: bv32, delta: bv32, n: nat, bits: nat, i: nat)
    requires 0 < bits <= 8 * i && i < |f|
    ensures AddProbes(f, h, delta, n, bits)[i] == f[i]
    decreases n
  {
    if n > 0 {
      AddProbesKeepsTail(SetBit(f, Position(h, bits)), NextProbe(h, delta), delta, n - 1, bits, i);
    }
  }

  lemma {:induction false} AddKeysKeepsTail(f: Bytes, keys: seq<Bytes>, n: nat, bits: nat, i: nat)
    requires 0 < bits <= 8 * i && i < |f|
    ensures AddKeys(f, keys, n, bits)[i] == f[i]
    decreases |keys|
  {
    hide Hash, Delta;
    if keys != [] {
      var m := |keys| - 1;
      AddKeysKeepsTail(f, keys[..m], n, bits, i);
      AddProbesKeepsTail(AddKeys(f, keys[..m], n, bits), Hash(keys[m]), Delta(Hash(keys[m])), n, bits, i);
    }
  }

  // ---------- filters ----------

  /** Any number of probes from 1 to 30 will do for what is proved here; `NewPolicy` chooses one. */
  datatype BloomPolicy = BloomPolicy(bitsPerKey: nat, k: nat) {

    predicate Valid() {
      1 <= k <= 30
    }

    // Number of bytes that hold bits, for `n` keys.
    function BodyLen(n: nat): (len: nat)
      ensures len >= 8
    {
      var filterBits := n * bitsPerKey;
      if filterBits < 64 then 8 else (filterBits + 7) / 8
    }

    /** The bits of a filter can be addressed with 32-bit positions. */
    predicate Addressable(n: nat) {
      8 * BodyLen(n) < U32
    }

    /** The filter for a list of keys: the bits, then `k`. */
    function FilterOf(keys: seq<Bytes>): (f: Bytes)
      requires Valid()
      ensures |f| == BodyLen(|keys|) + 1
    {
      var len := BodyLen(|keys|);
      AddKeys(seq(len, _ => 0) + [k], keys, k, 8 * len)
    }
  }

  /**
   `BloomPolicy::new`: 0.69 times the bits per key, rounded down and kept from 1 to 30. The 32-bit
   float has enough digits: from 1 to 43 bits per key the product is never nearer than 0.01 to a
   whole number, and from 44 on it is above 30.
   */
  function NewPolicy(bitsPerKey: nat): (p: BloomPolicy)
    ensures p.Valid() && p.bitsPerKey == bitsPerKey
  {
    var k := (bitsPerKey as real * 0.69).Floor;
    BloomPolicy(bitsPerKey, if k < 1 then 1 else if k > 30 then 30 else k)
  }

  /** In whole numbers: 69 hundredths rounded down from 2 to 43 bits per key, and the bounds of `k` outside. */
  lemma ProbesPerKey(b: nat)
    ensures b < 2 ==> NewPolicy(b).k == 1
    ensures 2 <= b <= 43 ==> 100 * NewPolicy(b).k < 69 * b < 100 * (NewPolicy(b).k + 1)
    ensures b > 43 ==> NewPolicy(b).k == 30
  {
  }

  // All `n` probed positions are set.
  predicate CheckProbes(f: Bytes, h: bv32, delta: bv32, n: nat, bits: nat)
    requires 0 < bits <= 8 * |f|
    decreases n
  {
    n == 0 || (HasBit(f, Position(h, bits)) && CheckProbes(f, NextProbe(h, delta), delta, n - 1, bits))
  }

  function FilterBits(filter: Bytes): nat
    requires filter != []
  {
    (|filter| - 1) % U32 * 8 % U32
  }

  /** The source divides by the number of bits unless it gives up earlier. */
  predicate Checkable(filter: Bytes) {
    filter == [] || filter[|filter| - 1] > 30 || FilterBits(filter) > 0
  }

  predicate MayMatch(key: Bytes, filter: Bytes)
    requires Checkable(filter)
  {
    hide FilterBits, Hash, Delta, CheckProbes;
    if filter == [] then true
    else
      FilterBitsFit(filter);
      var k := filter[|filter| - 1];
      if k > 30 then true
      else CheckProbes(filter[..|filter| - 1], Hash(key), Delta(Hash(key)), k, FilterBits(filter))
  }

  lemma {:induction false} CheckProbesMeaning(f: Bytes, h: bv32, delta: bv32, n: nat, bits: nat)
    requires 0 < bits <= 8 * |f|
    ensures CheckProbes(f, h, delta, n, bits)
       <==> forall pos :: 0 <= pos < bits && Hits(h, delta, n, bits, pos) ==> HasBit(f, pos)
    decreases n
  {
    hide HasBit, Position, NextProbe;
    if n > 0 {
      CheckProbesMeaning(f, NextProbe(h, delta), delta, n - 1, bits);
      assert Hits(h, delta, n, bits, Position(h, bits));
      forall pos | 0 <= pos < bits
        ensures Hits(NextProbe(h, delta), delta, n - 1, bits, pos) ==> Hits(h, delta, n, bits, pos)
      {
      }
    }
  }

  lemma ZeroBits(k: byte, len: nat, pos: nat)
    requires pos < 8 * len
    ensures !HasBit(seq(len, _ => 0) + [k], pos)
  {
    var f := seq(len, _ => 0) + [k];
    assert f[pos / 8] == 0;
    assert ToBits(0) == 0;
  }

  /** A filter's bits are exactly those its keys probe, and its last byte is still `k`. */
  lemma FilterExact(p: BloomPolicy, keys: seq<Bytes>, pos: nat)
    requires p.Valid() && p.Addressable(|keys|) && pos < 8 * p.BodyLen(|keys|)
    ensures var f := p.FilterOf(keys);
            && f[|f| - 1] == p.k && FilterBits(f) == 8 * p.BodyLen(|keys|)
            && HasBit(f[..|f| - 1], pos)
               == (exists i :: 0 <= i < |keys| && KeyHits(keys[i], p.k, FilterBits(f), pos))
  {
    hide HasBit, KeyHits, BloomPolicy.BodyLen, AddKeys;
    var len := p.BodyLen(|keys|);
    var zero := seq(len, _ => 0) + [p.k];
    AddKeysExact(zero, keys, p.k, 8 * len, pos);
    AddKeysKeepsTail(zero, keys, p.k, 8 * len, len);
    ZeroBits(p.k, len, pos);
    BitOfPrefix(p.FilterOf(keys), len, pos);
  }

  lemma BitOfPrefix(f: Bytes, n: nat, pos: nat)
    requires n <= |f| && pos < 8 * n
    ensures HasBit(f[..n], pos) == HasBit(f, pos)
  {
    hide TestBit;
  }

  /** Every position that `key` probes is set. */
  ghost predicate ProbesAreSet(body: Bytes, key: Bytes, n: nat, bits: nat)
    requires 0 < bits <= 8 * |body|
  {
    forall pos :: 0 <= pos < bits && KeyHits(key, n, bits, pos) ==> HasBit(body, pos)
  }

  /** An empty filter and one whose last byte is above 30 match every key. */
  lemma MatchesEveryKey(key: Bytes, filter: Bytes)
    requires filter == [] || filter[|filter| - 1] > 30
    ensures Checkable(filter) && MayMatch(key, filter)
  {
    hide CheckProbes;
  }

  /** Every other filter matches exactly the keys whose probes it has set. */
  lemma MatchesProbesSet(key: Bytes, body: Bytes, k: byte)
    requires k <= 30 && FilterBits(body + [k]) > 0
    ensures FilterBits(body + [k]) <= 8 * |body|
    ensures MayMatch(key, body + [k]) == ProbesAreSet(body, key, k, FilterBits(body + [k]))
  {
    var filter := body + [k];
    FilterBitsFit(filter);
    assert filter[..|filter| - 1] == body;
    CheckProbesMeaning(body, Hash(key), Delta(Hash(key)), k, FilterBits(filter));
    hide HasBit, Hash, Delta, CheckProbes, FilterBits, Hits;
    assert forall pos :: 0 <= pos < FilterBits(filter) ==>
        KeyHits(key, k, FilterBits(filter), pos) == Hits(Hash(key), Delta(Hash(key)), k, FilterBits(filter), pos);
  }

  /** Some key of the list probes `pos`. */
  ghost predicate SomeKeyHits(keys: seq<Bytes>, n: nat, bits: nat, pos: nat)
    requires bits > 0
  {
    exists i :: 0 <= i < |keys| && KeyHits(keys[i], n, bits, pos)
  }

  /** Every position that `key` probes is probed by one of `keys`. */
  ghost predicate Covers(keys: seq<Bytes>, key: Bytes, n: nat, bits: nat)
    requires bits > 0
  {
    forall pos :: 0 <= pos < bits && KeyHits(key, n, bits, pos) ==> SomeKeyHits(keys, n, bits, pos)
  }

  /** A filter rules a key out exactly when the key probes a position that none of the filter's keys probes. */
  lemma MatchesExactly(p: BloomPolicy, keys: seq<Bytes>, key: Bytes)
    requires p.Valid() && p.Addressable(|keys|)
    ensures Checkable(p.FilterOf(keys))
    ensures MayMatch(key, p.FilterOf(keys)) == Covers(keys, key, p.k, 8 * p.BodyLen(|keys|))
  {
    hide HasBit, KeyHits, BloomPolicy.FilterOf, BloomPolicy.BodyLen, FilterBits, MayMatch;
    var f := p.FilterOf(keys);
    FilterExact(p, keys, 0);
    var body, bits := f[..|f| - 1], FilterBits(f);
    assert f == body + [p.k];
    MatchesProbesSet(key, body, p.k);
    forall pos | 0 <= pos < bits ensures HasBit(body, pos) == SomeKeyHits(keys, p.k, bits, pos) {
      FilterExact(p, keys, pos);
    }
  }

  /** No false negatives: every key a filter was made for may match it. */
  lemma NoFalseNegatives(p: BloomPolicy, keys: seq<Bytes>, i: nat)
    requires p.Valid() && p.Addressable(|keys|) && i < |keys|
    ensures Checkable(p.FilterOf(keys)) && MayMatch(keys[i], p.FilterOf(keys))
  {
    hide KeyHits, BloomPolicy.FilterOf, BloomPolicy.BodyLen, FilterBits, MayMatch;
    MatchesExactly(p, keys, keys[i]);
  }

  /** At least the bits asked for per key and never fewer than 64, in whole bytes with less than one to spare. */
  lemma BodyLenBounds(p: BloomPolicy, n: nat)
    ensures var bits := 8 * p.BodyLen(n);
            && bits >= n * p.bitsPerKey && bits >= 64
            && (bits > 64 ==> bits < n * p.bitsPerKey + 8)
  {
  }

  // ---------- key lists as one byte string and offsets ----------

  ghost predicate OffsetsOk(data: Bytes, offsets: seq<nat>) {
    && (forall i :: 0 <= i < |offsets| ==> offsets[i] <= |data|)
    && (forall i :: 0 <= i < |offsets| - 1 ==> offsets[i] <= offsets[i + 1])
  }

  function PieceEnd(data: Bytes, offsets: seq<nat>, i: nat): nat
    requires i < |offsets|
  {
    if i == |offsets| - 1 then |data| else offsets[i + 1]
  }

  /** `offset_data_iterate`: the pieces of `data` that start at the given offsets. */
  function Pieces(data: Bytes, offsets: seq<nat>): (r: seq<Bytes>)
    requires OffsetsOk(data, offsets)
    ensures |r| == |offsets|
  {
    seq(|offsets|, i requires 0 <= i < |offsets| && OffsetsOk(data, offsets) =>
      data[offsets[i]..PieceEnd(data, offsets, i)])
  }

  function Concat(keys: seq<Bytes>): Bytes {
    if keys == [] then [] else Concat(keys[..|keys| - 1]) + keys[|keys| - 1]
  }

  function KeyOffsets(keys: seq<Bytes>): (r: seq<nat>)
    ensures |r| == |keys|
  {
    if keys == [] then []
    else KeyOffsets(keys[..|keys| - 1]) + [|Concat(keys[..|keys| - 1])|]
  }

  // Appending one more key appends one more piece and changes no other.
  lemma PiecesSnoc(data: Bytes, offsets: seq<nat>, key: Bytes)
    requires OffsetsOk(data, offsets)
    ensures OffsetsOk(data + key, offsets + [|data|])
    ensures Pieces(data + key, offsets + [|data|]) == Pieces(data, offsets) + [key]
  {
    var data', offsets' := data + key, offsets + [|data|];
    var ps := Pieces(data', offsets');
    forall i | 0 <= i < |offsets| ensures ps[i] == Pieces(data, offsets)[i] {
      assert PieceEnd(data', offsets', i) == PieceEnd(data, offsets, i);
    }
    assert ps[|offsets|] == key;
  }

  /** Slicing the concatenation of keys at their offsets gives the keys back. */
  lemma {:induction false} PiecesOfConcat(keys: seq<Bytes>)
    ensures OffsetsOk(Concat(keys), KeyOffsets(keys))
    ensures Pieces(Concat(keys), KeyOffsets(keys)) == keys
    decreases |keys|
  {
    hide Pieces;
    if keys != [] {
      var m := |keys| - 1;
      PiecesOfConcat(keys[..m]);
      PiecesSnoc(Concat(keys[..m]), KeyOffsets(keys[..m]), keys[m]);
    }
  }

  /** `create_filter`. The source sets bits in place in a byte vector that already ends in `k`. */
  method CreateFilter(p: BloomPolicy, data: Bytes, offsets: seq<nat>) returns (filter: Bytes)
    requires p.Valid() && OffsetsOk(data, offsets) && p.Addressable(|offsets|)
    ensures filter == p.FilterOf(Pieces(data, offsets))
  {
    hide Hash, Delta, BloomPolicy.BodyLen, AddProbes;
    var len := p.BodyLen(|offsets|);
    filter := seq(len, _ => 0);
    var adjFilterBits := |filter| * 8 % U32;
    filter := filter + [p.k];
    ghost var zero := filter;
    ghost var keys := Pieces(data, offsets);
    for i := 0 to |offsets|
      invariant |filter| == len + 1
      invariant filter == AddKeys(zero, keys[..i], p.k, adjFilterBits)
    {
      var upper := if i == |offsets| - 1 then |data| else offsets[i + 1];
      var piece := data[offsets[i]..upper];
      assert piece == keys[i];
      filter := AddOneKey(filter, piece, p.k, adjFilterBits);
      assert keys[..i + 1][..i] == keys[..i];
    }
    assert keys[..|offsets|] == keys;
  }

  method AddOneKey(f: Bytes, key: Bytes, k: nat, bits: nat) returns (filter: Bytes)
    requires 0 < bits <= 8 * |f|
    ensures filter == AddProbes(f, Hash(key), Delta(Hash(key)), k, bits)
  {
    hide NextProbe, Position, OrBit, TestBit;
    filter := f;
    var h := BloomHash(key);
    hide Hash;
    var delta := Delta(h);
    hide Delta;
    for n := 0 to k
      invariant |filter| == |f|
      invariant AddProbes(filter, h, delta, k - n, bits) == AddProbes(f, Hash(key), Delta(Hash(key)), k, bits)
    {
      var bitPos := Position(h, bits);
      filter := filter[bitPos / 8 := OrBit(filter[bitPos / 8], bitPos % 8)];
      h := NextProbe(h, delta);
    }
  }

  /** `key_may_match`. */
  method KeyMayMatch(key: Bytes, filter: Bytes) returns (r: bool)
    requires Checkable(filter)
    ensures r == MayMatch(key, filter)
  {
    hide Hash, HasBit, Position, FilterBits, NextProbe;
    if |filter| == 0 {
      return true;
    }
    var bits := FilterBits(filter);
    var k := filter[|filter| - 1];
    var filterAdj := filter[0..|filter| - 1];
    if k > 30 {
      return true;
    }
    FilterBitsFit(filter);
    var h := BloomHash(key);
    var delta := Delta(h);
    hide Delta;
    assert filterAdj == filter[..|filter| - 1];
    for n := 0 to k
      invariant CheckProbes(filterAdj, h, delta, k - n, bits) == MayMatch(key, filter)
    {
      var bitPos := Position(h, bits);
      if !HasBit(filterAdj, bitPos) {
        return false;
      }
      h := NextProbe(h, delta);
    }
    r := true;
  }

  lemma FilterBitsFit(filter: Bytes)
    requires filter != []
    ensures FilterBits(filter) <= 8 * (|filter| - 1)
  {
  }
}

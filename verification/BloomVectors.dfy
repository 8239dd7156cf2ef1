/**
 Known answers: the hash values and the filter that the tests of the policy expect, step by step.
 */
module BloomVectors {
  import opened Bytes
  import opened Codec
  import opened Bloom

  // ---------- single steps, from numbers to numbers ----------

  function AsWord(n: nat): bv32
    requires n < U32
  {
    n as bv32
  }

  function AsInt(b: byte): int {
    b
  }

  lemma FourBytes(s: Bytes)
    requires |s| == 4
    ensures DecodeFixed(s) == AsInt(s[0]) + 256 * AsInt(s[1]) + 65536 * AsInt(s[2]) + 16777216 * AsInt(s[3])
  {
    assert DecodeFixed(s[3..]) == AsInt(s[3]);
    assert DecodeFixed(s[2..]) == AsInt(s[2]) + 256 * AsInt(s[3]);
    assert DecodeFixed(s[1..]) == AsInt(s[1]) + 256 * AsInt(s[2]) + 65536 * AsInt(s[3]);
  }

  // One word of the hash; its bytes, taken as a number, are `n`.
  lemma WordStep(d: Bytes, ix: nat, h: bv32, n: nat, w: bv32, next: bv32)
    requires ix + 4 <= |d| && n < U32 && AsWord(n) == w
    requires AsInt(d[ix]) + 256 * AsInt(d[ix + 1]) + 65536 * AsInt(d[ix + 2]) + 16777216 * AsInt(d[ix + 3]) == n
    requires MixWord(h, w) == next
    ensures HashFrom(d, ix, h) == HashFrom(d, ix + 4, next)
  {
    FourBytes(d[ix..ix + 4]);
    assert Word(d, ix) == w by {
      hide DecodeFixed, AsInt, MixWord;
    }
    hide DecodeFixed, AsInt, AsWord, MixWord, Word;
  }

  lemma TailOfTwo(d: Bytes, ix: nat, h: bv32, h1: bv32, h2: bv32, last: bv32)
    requires ix + 2 == |d|
    requires AddByte(h, d[ix], 0) == h1 && AddByte(h1, d[ix + 1], 1) == h2 && FinishTail(h2) == last
    ensures HashFrom(d, ix, h) == last
  {
    hide AddByte, FinishTail;
    assert AddTail(d, ix + 2, 2, h2) == h2;
    assert AddTail(d, ix + 1, 1, h1) == h2;
  }

  lemma NoTail(d: Bytes, h: bv32)
    ensures HashFrom(d, |d|, h) == h
  {
  }

  lemma ProbeStep(f: Bytes, g: Bytes, h: bv32, delta: bv32, n: nat, pos: nat, next: bv32)
    requires |f| == 9 && n > 0 && pos < 64
    requires Position(h, 64) == pos && NextProbe(h, delta) == next
    requires g == f[pos / 8 := OrBit(f[pos / 8], pos % 8)]
    ensures AddProbes(f, h, delta, n, 64) == AddProbes(g, next, delta, n - 1, 64)
  {
    hide Position, OrBit, NextProbe;
  }

  lemma NoProbes(f: Bytes, h: bv32, delta: bv32)
    requires |f| == 9
    ensures AddProbes(f, h, delta, 0, 64) == f
  {
  }

  // ---------- known hash values ----------

  lemma HashOfOneByte()
    ensures Hash([0x62]) == 0xef1345c4
  {
    var d: Bytes := [0x62];
    assert HashStart(1) == 0x7a3bbaa7;
    assert AddByte(0x7a3bbaa7, 0x62, 0) == 0x7a3bbb09;
    assert FinishTail(0x7a3bbb09) == 0xef1345c4;
    hide HashStart, AddByte, FinishTail;
    assert AddTail(d, 1, 1, 0x7a3bbb09) == 0x7a3bbb09;
    assert AddTail(d, 0, 0, 0x7a3bbaa7) == 0x7a3bbb09;
  }

  lemma HashOfTwoBytes()
    ensures Hash([0xc3, 0x97]) == 0x5b663814
  {
    var d: Bytes := [0xc3, 0x97];
    assert HashStart(2) == 0x31d65212;
    assert AddByte(0x31d65212, 0xc3, 0) == 0x31d652d5;
    assert AddByte(0x31d652d5, 0x97, 1) == 0x31d6e9d5;
    assert FinishTail(0x31d6e9d5) == 0x5b663814;
    hide HashStart, AddByte, FinishTail;
    TailOfTwo(d, 0, 0x31d65212, 0x31d652d5, 0x31d6e9d5, 0x5b663814);
  }

  lemma HashOfThreeBytes()
    ensures Hash([0xe2, 0x99, 0xa5]) == 0x323c078f
  {
    var d: Bytes := [0xe2, 0x99, 0xa5];
    assert HashStart(3) == 0xef72eb8d;
    assert AddByte(0xef72eb8d, 0xe2, 0) == 0xef72ec6f;
    assert AddByte(0xef72ec6f, 0x99, 1) == 0xef73856f;
    assert AddByte(0xef73856f, 0xa5, 2) == 0xf018856f;
    assert FinishTail(0xf018856f) == 0x323c078f;
    hide HashStart, AddByte, FinishTail;
    assert AddTail(d, 3, 3, 0xf018856f) == 0xf018856f;
    assert AddTail(d, 2, 2, 0xef73856f) == 0xf018856f;
    assert AddTail(d, 1, 1, 0xef72ec6f) == 0xf018856f;
    assert AddTail(d, 0, 0, 0xef72eb8d) == 0xf018856f;
  }

  lemma HashOfOneWord()
    ensures Hash([0xe1, 0x80, 0xb9, 0x32]) == 0xed21633a
  {
    var d: Bytes := [0xe1, 0x80, 0xb9, 0x32];
    assert HashStart(4) == 0xa60d8378;
    assert AsWord(0x32b980e1) == 0x32b980e1 && MixWord(0xa60d8378, 0x32b980e1) == 0xed21633a;
    hide HashStart, AsWord, MixWord, HashFrom;
    WordStep(d, 0, 0xa60d8378, 0x32b980e1, 0x32b980e1, 0xed21633a);
    NoTail(d, 0xed21633a);
  }

  /** The hash values that the tests of the policy expect: one, two and three bytes, and one whole word. */
  lemma KnownHashValues()
    ensures Hash([0x62]) == 0xef1345c4
    ensures Hash([0xc3, 0x97]) == 0x5b663814
    ensures Hash([0xe2, 0x99, 0xa5]) == 0x323c078f
    ensures Hash([0xe1, 0x80, 0xb9, 0x32]) == 0xed21633a
  {
    hide *;
    HashOfOneByte();
    HashOfTwoBytes();
    HashOfThreeBytes();
    HashOfOneWord();
  }

  // ---------- the known filter ----------

  // "abc123def456"
  const KEY1: Bytes := [97, 98, 99, 49, 50, 51, 100, 101, 102, 52, 53, 54]

  lemma Mix1()
    ensures HashStart(12) == 0xf328c7d0
    ensures AsWord(0x31636261) == 0x31636261 && MixWord(0xf328c7d0, 0x31636261) == 0x59666845
    ensures AsWord(0x65643332) == 0x65643332 && MixWord(0x59666845, 0x65643332) == 0x5bfdbda8
    ensures AsWord(0x36353466) == 0x36353466 && MixWord(0x5bfdbda8, 0x36353466) == 0x1420342a
  {
  }

  lemma Hash1()
    ensures Hash(KEY1) == 0x1420342a
  {
    Mix1();
    hide HashStart, AsWord, MixWord, AddByte, AddTail, FinishTail, HashFrom;
    WordStep(KEY1, 0, 0xf328c7d0, 0x31636261, 0x31636261, 0x59666845);
    WordStep(KEY1, 4, 0x59666845, 0x65643332, 0x65643332, 0x5bfdbda8);
    WordStep(KEY1, 8, 0x5bfdbda8, 0x36353466, 0x36353466, 0x1420342a);
    NoTail(KEY1, 0x1420342a);
  }

  lemma Numbers1()
    ensures Delta(0x1420342a) == 0x1a150a10
    ensures Position(0x1420342a, 64) == 42 && OrBit(0, 2) == 4
         && NextProbe(0x1420342a, 0x1a150a10) == 0x2e353e3a
    ensures Position(0x2e353e3a, 64) == 58 && OrBit(0, 2) == 4
         && NextProbe(0x2e353e3a, 0x1a150a10) == 0x484a484a
    ensures Position(0x484a484a, 64) == 10 && OrBit(0, 2) == 4
         && NextProbe(0x484a484a, 0x1a150a10) == 0x625f525a
    ensures Position(0x625f525a, 64) == 26 && OrBit(0, 2) == 4
         && NextProbe(0x625f525a, 0x1a150a10) == 0x7c745c6a
    ensures Position(0x7c745c6a, 64) == 42 && OrBit(4, 2) == 4
         && NextProbe(0x7c745c6a, 0x1a150a10) == 0x9689667a
    ensures Position(0x9689667a, 64) == 58 && OrBit(4, 2) == 4
         && NextProbe(0x9689667a, 0x1a150a10) == 0xb09e708a
    ensures Position(0xb09e708a, 64) == 10 && OrBit(4, 2) == 4
         && NextProbe(0xb09e708a, 0x1a150a10) == 0xcab37a9a
    ensures Position(0xcab37a9a, 64) == 26 && OrBit(4, 2) == 4
         && NextProbe(0xcab37a9a, 0x1a150a10) == 0xe4c884aa
  {
  }

  lemma Probes1()
    ensures AddProbes([0, 0, 0, 0, 0, 0, 0, 0, 8], Hash(KEY1), Delta(Hash(KEY1)), 8, 64)
         == [0, 4, 0, 4, 0, 4, 0, 4, 8]
  {
    Hash1();
    Numbers1();
    hide Hash, Delta, Position, OrBit, NextProbe, AddProbes, KEY1;
    ProbeStep([0, 0, 0, 0, 0, 0, 0, 0, 8], [0, 0, 0, 0, 0, 4, 0, 0, 8],
              0x1420342a, 0x1a150a10, 8, 42, 0x2e353e3a);
    ProbeStep([0, 0, 0, 0, 0, 4, 0, 0, 8], [0, 0, 0, 0, 0, 4, 0, 4, 8],
              0x2e353e3a, 0x1a150a10, 7, 58, 0x484a484a);
    ProbeStep([0, 0, 0, 0, 0, 4, 0, 4, 8], [0, 4, 0, 0, 0, 4, 0, 4, 8],
              0x484a484a, 0x1a150a10, 6, 10, 0x625f525a);
    ProbeStep([0, 4, 0, 0, 0, 4, 0, 4, 8], [0, 4, 0, 4, 0, 4, 0, 4, 8],
              0x625f525a, 0x1a150a10, 5, 26, 0x7c745c6a);
    ProbeStep([0, 4, 0, 4, 0, 4, 0, 4, 8], [0, 4, 0, 4, 0, 4, 0, 4, 8],
              0x7c745c6a, 0x1a150a10, 4, 42, 0x9689667a);
    ProbeStep([0, 4, 0, 4, 0, 4, 0, 4, 8], [0, 4, 0, 4, 0, 4, 0, 4, 8],
              0x9689667a, 0x1a150a10, 3, 58, 0xb09e708a);
    ProbeStep([0, 4, 0, 4, 0, 4, 0, 4, 8], [0, 4, 0, 4, 0, 4, 0, 4, 8],
              0xb09e708a, 0x1a150a10, 2, 10, 0xcab37a9a);
    ProbeStep([0, 4, 0, 4, 0, 4, 0, 4, 8], [0, 4, 0, 4, 0, 4, 0, 4, 8],
              0xcab37a9a, 0x1a150a10, 1, 26, 0xe4c884aa);
    NoProbes([0, 4, 0, 4, 0, 4, 0, 4, 8], 0xe4c884aa, 0x1a150a10);
  }

  // "xxx111xxx222"
  const KEY2: Bytes := [120, 120, 120, 49, 49, 49, 120, 120, 120, 50, 50, 50]

  lemma Mix2()
    ensures HashStart(12) == 0xf328c7d0
    ensures AsWord(0x31787878) == 0x31787878 && MixWord(0xf328c7d0, 0x31787878) == 0x17a6f6fe
    ensures AsWord(0x78783131) == 0x78783131 && MixWord(0x17a6f6fe, 0x78783131) == 0x2d3696cb
    ensures AsWord(0x32323278) == 0x32323278 && MixWord(0x2d3696cb, 0x32323278) == 0xe562a31b
  {
  }

  lemma Hash2()
    ensures Hash(KEY2) == 0xe562a31b
  {
    Mix2();
    hide HashStart, AsWord, MixWord, AddByte, AddTail, FinishTail, HashFrom;
    WordStep(KEY2, 0, 0xf328c7d0, 0x31787878, 0x31787878, 0x17a6f6fe);
    WordStep(KEY2, 4, 0x17a6f6fe, 0x78783131, 0x78783131, 0x2d3696cb);
    WordStep(KEY2, 8, 0x2d3696cb, 0x32323278, 0x32323278, 0xe562a31b);
    NoTail(KEY2, 0xe562a31b);
  }

  lemma Numbers2()
    ensures Delta(0xe562a31b) == 0x518df2b1
    ensures Position(0xe562a31b, 64) == 27 && OrBit(4, 3) == 12
         && NextProbe(0xe562a31b, 0x518df2b1) == 0x36f095cc
    ensures Position(0x36f095cc, 64) == 12 && OrBit(4, 4) == 20
         && NextProbe(0x36f095cc, 0x518df2b1) == 0x887e887d
    ensures Position(0x887e887d, 64) == 61 && OrBit(4, 5) == 36
         && NextProbe(0x887e887d, 0x518df2b1) == 0xda0c7b2e
    ensures Position(0xda0c7b2e, 64) == 46 && OrBit(4, 6) == 68
         && NextProbe(0xda0c7b2e, 0x518df2b1) == 0x2b9a6ddf
    ensures Position(0x2b9a6ddf, 64) == 31 && OrBit(12, 7) == 140
         && NextProbe(0x2b9a6ddf, 0x518df2b1) == 0x7d286090
    ensures Position(0x7d286090, 64) == 16 && OrBit(0, 0) == 1
         && NextProbe(0x7d286090, 0x518df2b1) == 0xceb65341
    ensures Position(0xceb65341, 64) == 1 && OrBit(0, 1) == 2
         && NextProbe(0xceb65341, 0x518df2b1) == 0x204445f2
    ensures Position(0x204445f2, 64) == 50 && OrBit(0, 2) == 4
         && NextProbe(0x204445f2, 0x518df2b1) == 0x71d238a3
  {
  }

  lemma Probes2()
    ensures AddProbes([0, 4, 0, 4, 0, 4, 0, 4, 8], Hash(KEY2), Delta(Hash(KEY2)), 8, 64)
         == [2, 20, 1, 140, 0, 68, 4, 36, 8]
  {
    Hash2();
    Numbers2();
    hide Hash, Delta, Position, OrBit, NextProbe, AddProbes, KEY2;
    ProbeStep([0, 4, 0, 4, 0, 4, 0, 4, 8], [0, 4, 0, 12, 0, 4, 0, 4, 8],
              0xe562a31b, 0x518df2b1, 8, 27, 0x36f095cc);
    ProbeStep([0, 4, 0, 12, 0, 4, 0, 4, 8], [0, 20, 0, 12, 0, 4, 0, 4, 8],
              0x36f095cc, 0x518df2b1, 7, 12, 0x887e887d);
    ProbeStep([0, 20, 0, 12, 0, 4, 0, 4, 8], [0, 20, 0, 12, 0, 4, 0, 36, 8],
              0x887e887d, 0x518df2b1, 6, 61, 0xda0c7b2e);
    ProbeStep([0, 20, 0, 12, 0, 4, 0, 36, 8], [0, 20, 0, 12, 0, 68, 0, 36, 8],
              0xda0c7b2e, 0x518df2b1, 5, 46, 0x2b9a6ddf);
    ProbeStep([0, 20, 0, 12, 0, 68, 0, 36, 8], [0, 20, 0, 140, 0, 68, 0, 36, 8],
              0x2b9a6ddf, 0x518df2b1, 4, 31, 0x7d286090);
    ProbeStep([0, 20, 0, 140, 0, 68, 0, 36, 8], [0, 20, 1, 140, 0, 68, 0, 36, 8],
              0x7d286090, 0x518df2b1, 3, 16, 0xceb65341);
    ProbeStep([0, 20, 1, 140, 0, 68, 0, 36, 8], [2, 20, 1, 140, 0, 68, 0, 36, 8],
              0xceb65341, 0x518df2b1, 2, 1, 0x204445f2);
    ProbeStep([2, 20, 1, 140, 0, 68, 0, 36, 8], [2, 20, 1, 140, 0, 68, 4, 36, 8],
              0x204445f2, 0x518df2b1, 1, 50, 0x71d238a3);
    NoProbes([2, 20, 1, 140, 0, 68, 4, 36, 8], 0x71d238a3, 0x518df2b1);
  }

  // "ab00cd00ab"
  const KEY3: Bytes := [97, 98, 48, 48, 99, 100, 48, 48, 97, 98]

  lemma Mix3()
    ensures HashStart(10) == 0x7ef1968a
    ensures AsWord(0x30306261) == 0x30306261 && MixWord(0x7ef1968a, 0x30306261) == 0xf26fc99e
    ensures AsWord(0x30306463) == 0x30306463 && MixWord(0xf26fc99e, 0x30306463) == 0x9ea18f32
    ensures AddByte(0x9ea18f32, 97, 0) == 0x9ea18f93
    ensures AddByte(0x9ea18f93, 98, 1) == 0x9ea1f193
    ensures FinishTail(0x9ea1f193) == 0x2fc09c46
  {
  }

  lemma Hash3()
    ensures Hash(KEY3) == 0x2fc09c46
  {
    Mix3();
    hide HashStart, AsWord, MixWord, AddByte, AddTail, FinishTail, HashFrom;
    WordStep(KEY3, 0, 0x7ef1968a, 0x30306261, 0x30306261, 0xf26fc99e);
    WordStep(KEY3, 4, 0xf26fc99e, 0x30306463, 0x30306463, 0x9ea18f32);
    TailOfTwo(KEY3, 8, 0x9ea18f32, 0x9ea18f93, 0x9ea1f193, 0x2fc09c46);
  }

  lemma Numbers3()
    ensures Delta(0x2fc09c46) == 0x4e2317e0
    ensures Position(0x2fc09c46, 64) == 6 && OrBit(2, 6) == 66
         && NextProbe(0x2fc09c46, 0x4e2317e0) == 0x7de3b426
    ensures Position(0x7de3b426, 64) == 38 && OrBit(0, 6) == 64
         && NextProbe(0x7de3b426, 0x4e2317e0) == 0xcc06cc06
    ensures Position(0xcc06cc06, 64) == 6 && OrBit(66, 6) == 66
         && NextProbe(0xcc06cc06, 0x4e2317e0) == 0x1a29e3e6
    ensures Position(0x1a29e3e6, 64) == 38 && OrBit(64, 6) == 64
         && NextProbe(0x1a29e3e6, 0x4e2317e0) == 0x684cfbc6
    ensures Position(0x684cfbc6, 64) == 6 && OrBit(66, 6) == 66
         && NextProbe(0x684cfbc6, 0x4e2317e0) == 0xb67013a6
    ensures Position(0xb67013a6, 64) == 38 && OrBit(64, 6) == 64
         && NextProbe(0xb67013a6, 0x4e2317e0) == 0x04932b86
    ensures Position(0x04932b86, 64) == 6 && OrBit(66, 6) == 66
         && NextProbe(0x04932b86, 0x4e2317e0) == 0x52b64366
    ensures Position(0x52b64366, 64) == 38 && OrBit(64, 6) == 64
         && NextProbe(0x52b64366, 0x4e2317e0) == 0xa0d95b46
  {
  }

  lemma Probes3()
    ensures AddProbes([2, 20, 1, 140, 0, 68, 4, 36, 8], Hash(KEY3), Delta(Hash(KEY3)), 8, 64)
         == [66, 20, 1, 140, 64, 68, 4, 36, 8]
  {
    Hash3();
    Numbers3();
    hide Hash, Delta, Position, OrBit, NextProbe, AddProbes, KEY3;
    ProbeStep([2, 20, 1, 140, 0, 68, 4, 36, 8], [66, 20, 1, 140, 0, 68, 4, 36, 8],
              0x2fc09c46, 0x4e2317e0, 8, 6, 0x7de3b426);
    ProbeStep([66, 20, 1, 140, 0, 68, 4, 36, 8], [66, 20, 1, 140, 64, 68, 4, 36, 8],
              0x7de3b426, 0x4e2317e0, 7, 38, 0xcc06cc06);
    ProbeStep([66, 20, 1, 140, 64, 68, 4, 36, 8], [66, 20, 1, 140, 64, 68, 4, 36, 8],
              0xcc06cc06, 0x4e2317e0, 6, 6, 0x1a29e3e6);
    ProbeStep([66, 20, 1, 140, 64, 68, 4, 36, 8], [66, 20, 1, 140, 64, 68, 4, 36, 8],
              0x1a29e3e6, 0x4e2317e0, 5, 38, 0x684cfbc6);
    ProbeStep([66, 20, 1, 140, 64, 68, 4, 36, 8], [66, 20, 1, 140, 64, 68, 4, 36, 8],
              0x684cfbc6, 0x4e2317e0, 4, 6, 0xb67013a6);
    ProbeStep([66, 20, 1, 140, 64, 68, 4, 36, 8], [66, 20, 1, 140, 64, 68, 4, 36, 8],
              0xb67013a6, 0x4e2317e0, 3, 38, 0x04932b86);
    ProbeStep([66, 20, 1, 140, 64, 68, 4, 36, 8], [66, 20, 1, 140, 64, 68, 4, 36, 8],
              0x04932b86, 0x4e2317e0, 2, 6, 0x52b64366);
    ProbeStep([66, 20, 1, 140, 64, 68, 4, 36, 8], [66, 20, 1, 140, 64, 68, 4, 36, 8],
              0x52b64366, 0x4e2317e0, 1, 38, 0xa0d95b46);
    NoProbes([66, 20, 1, 140, 64, 68, 4, 36, 8], 0xa0d95b46, 0x4e2317e0);
  }

  // "908070605040302010"
  const KEY4: Bytes := [57, 48, 56, 48, 55, 48, 54, 48, 53, 48, 52, 48, 51, 48, 50, 48, 49, 48]

  lemma Mix4()
    ensures HashStart(18) == 0x4b0cd562
    ensures AsWord(0x30383039) == 0x30383039 && MixWord(0x4b0cd562, 0x30383039) == 0x48961d97
    ensures AsWord(0x30363037) == 0x30363037 && MixWord(0x48961d97, 0x30363037) == 0xd00adf40
    ensures AsWord(0x30343035) == 0x30343035 && MixWord(0xd00adf40, 0x30343035) == 0xac3f9f10
    ensures AsWord(0x30323033) == 0x30323033 && MixWord(0xac3f9f10, 0x30323033) == 0x6c7ad403
    ensures AddByte(0x6c7ad403, 49, 0) == 0x6c7ad434
    ensures AddByte(0x6c7ad434, 48, 1) == 0x6c7b0434
    ensures FinishTail(0x6c7b0434) == 0x73b155af
  {
  }

  lemma Hash4()
    ensures Hash(KEY4) == 0x73b155af
  {
    Mix4();
    hide HashStart, AsWord, MixWord, AddByte, AddTail, FinishTail, HashFrom;
    WordStep(KEY4, 0, 0x4b0cd562, 0x30383039, 0x30383039, 0x48961d97);
    WordStep(KEY4, 4, 0x48961d97, 0x30363037, 0x30363037, 0xd00adf40);
    WordStep(KEY4, 8, 0xd00adf40, 0x30343035, 0x30343035, 0xac3f9f10);
    WordStep(KEY4, 12, 0xac3f9f10, 0x30323033, 0x30323033, 0x6c7ad403);
    TailOfTwo(KEY4, 16, 0x6c7ad403, 0x6c7ad434, 0x6c7b0434, 0x73b155af);
  }

  lemma Numbers4()
    ensures Delta(0x73b155af) == 0xaad7b9d8
    ensures Position(0x73b155af, 64) == 47 && OrBit(68, 7) == 196
         && NextProbe(0x73b155af, 0xaad7b9d8) == 0x1e890f87
    ensures Position(0x1e890f87, 64) == 7 && OrBit(66, 7) == 194
         && NextProbe(0x1e890f87, 0xaad7b9d8) == 0xc960c95f
    ensures Position(0xc960c95f, 64) == 31 && OrBit(140, 7) == 140
         && NextProbe(0xc960c95f, 0xaad7b9d8) == 0x74388337
    ensures Position(0x74388337, 64) == 55 && OrBit(4, 7) == 132
         && NextProbe(0x74388337, 0xaad7b9d8) == 0x1f103d0f
    ensures Position(0x1f103d0f, 64) == 15 && OrBit(20, 7) == 148
         && NextProbe(0x1f103d0f, 0xaad7b9d8) == 0xc9e7f6e7
    ensures Position(0xc9e7f6e7, 64) == 39 && OrBit(64, 7) == 192
         && NextProbe(0xc9e7f6e7, 0xaad7b9d8) == 0x74bfb0bf
    ensures Position(0x74bfb0bf, 64) == 63 && OrBit(36, 7) == 164
         && NextProbe(0x74bfb0bf, 0xaad7b9d8) == 0x1f976a97
    ensures Position(0x1f976a97, 64) == 23 && OrBit(1, 7) == 129
         && NextProbe(0x1f976a97, 0xaad7b9d8) == 0xca6f246f
  {
  }

  lemma Probes4()
    ensures AddProbes([66, 20, 1, 140, 64, 68, 4, 36, 8], Hash(KEY4), Delta(Hash(KEY4)), 8, 64)
         == [194, 148, 129, 140, 192, 196, 132, 164, 8]
  {
    Hash4();
    Numbers4();
    hide Hash, Delta, Position, OrBit, NextProbe, AddProbes, KEY4;
    ProbeStep([66, 20, 1, 140, 64, 68, 4, 36, 8], [66, 20, 1, 140, 64, 196, 4, 36, 8],
              0x73b155af, 0xaad7b9d8, 8, 47, 0x1e890f87);
    ProbeStep([66, 20, 1, 140, 64, 196, 4, 36, 8], [194, 20, 1, 140, 64, 196, 4, 36, 8],
              0x1e890f87, 0xaad7b9d8, 7, 7, 0xc960c95f);
    ProbeStep([194, 20, 1, 140, 64, 196, 4, 36, 8], [194, 20, 1, 140, 64, 196, 4, 36, 8],
              0xc960c95f, 0xaad7b9d8, 6, 31, 0x74388337);
    ProbeStep([194, 20, 1, 140, 64, 196, 4, 36, 8], [194, 20, 1, 140, 64, 196, 132, 36, 8],
              0x74388337, 0xaad7b9d8, 5, 55, 0x1f103d0f);
    ProbeStep([194, 20, 1, 140, 64, 196, 132, 36, 8], [194, 148, 1, 140, 64, 196, 132, 36, 8],
              0x1f103d0f, 0xaad7b9d8, 4, 15, 0xc9e7f6e7);
    ProbeStep([194, 148, 1, 140, 64, 196, 132, 36, 8], [194, 148, 1, 140, 192, 196, 132, 36, 8],
              0xc9e7f6e7, 0xaad7b9d8, 3, 39, 0x74bfb0bf);
    ProbeStep([194, 148, 1, 140, 192, 196, 132, 36, 8], [194, 148, 1, 140, 192, 196, 132, 164, 8],
              0x74bfb0bf, 0xaad7b9d8, 2, 63, 0x1f976a97);
    ProbeStep([194, 148, 1, 140, 192, 196, 132, 164, 8], [194, 148, 129, 140, 192, 196, 132, 164, 8],
              0x1f976a97, 0xaad7b9d8, 1, 23, 0xca6f246f);
    NoProbes([194, 148, 129, 140, 192, 196, 132, 164, 8], 0xca6f246f, 0xaad7b9d8);
  }

  /** The filter that the tests of the policy expect for their four keys and 12 bits per key. */
  lemma KnownFilter()
    ensures NewPolicy(12).FilterOf([KEY1, KEY2, KEY3, KEY4]) == [194, 148, 129, 140, 192, 196, 132, 164, 8]
  {
    assert NewPolicy(12) == BloomPolicy(12, 8);
    assert BloomPolicy(12, 8).BodyLen(4) == 8;
    var zero: Bytes := seq(8, _ => 0) + [8];
    assert zero == [0, 0, 0, 0, 0, 0, 0, 0, 8];
    Probes1();
    Probes2();
    Probes3();
    Probes4();
    hide Hash, Delta, AddProbes, KEY1, KEY2, KEY3, KEY4, NewPolicy, BloomPolicy.BodyLen;
    KeysOneByOne(zero, KEY1, KEY2, KEY3, KEY4);
  }

  lemma KeysOneByOne(f: Bytes, a: Bytes, b: Bytes, c: Bytes, d: Bytes)
    requires |f| == 9
    ensures AddKeys(f, [a, b, c, d], 8, 64) == AddOne(AddOne(AddOne(AddOne(f, a), b), c), d)
  {
    hide Hash, Delta, AddProbes;
    assert [a, b, c, d][..3] == [a, b, c] && [a, b, c][..2] == [a, b] && [a, b][..1] == [a] && [a][..0] == [];
    assert AddKeys(f, [a], 8, 64) == AddOne(f, a);
    assert AddKeys(f, [a, b], 8, 64) == AddOne(AddOne(f, a), b);
    assert AddKeys(f, [a, b, c], 8, 64) == AddOne(AddOne(AddOne(f, a), b), c);
  }

  function AddOne(f: Bytes, key: Bytes): (g: Bytes)
    requires |f| == 9
    ensures |g| == 9
  {
    AddProbes(f, Hash(key), Delta(Hash(key)), 8, 64)
  }
}

/**
 Integer encodings, block handles and the table footer.

 Variable-length integers are unsigned LEB128 (section 7.6 of the DWARF 5 standard) on 64-bit
 values; fixed-width integers are little endian.
 */
module Codec {
  import opened Bytes

  // ---------- variable-length integers ----------

  const MAX_VAR_LEN: nat := 10

  function EncodeVar(n: nat): (s: Bytes)
    ensures |s| >= 1
  {
    if n < 128 then [n] else [128 + n % 128] + EncodeVar(n / 128)
  }

  // Groups of seven bits, low group first, at most `room` of them.
  function DecodeGroups(s: Bytes, room: nat): (r: Option<(nat, nat)>)
    ensures r.Some? ==> 1 <= r.value.1 <= |s|
    decreases room
  {
    if s == [] || room == 0 then None
    else if s[0] < 128 then Some((s[0], 1))
    else
      match DecodeGroups(s[1..], room - 1)
      case None => None
      case Some((v, len)) => Some((s[0] - 128 + 128 * v, len + 1))
  }

  /** The value and the number of bytes read; `None` where the source unwraps a missing value. */
  function DecodeVar(s: Bytes): (r: Option<(nat, nat)>)
    ensures r.Some? ==> 1 <= r.value.1 <= |s| && r.value.0 < U64
  {
    match DecodeGroups(s, MAX_VAR_LEN)
    case None => None
    case Some((v, len)) => Some((v % U64, len))
  }

  function Pow128(k: nat): nat {
    if k == 0 then 1 else 128 * Pow128(k - 1)
  }

  lemma {:induction false} GroupsRoundTrip(n: nat, rest: Bytes, room: nat)
    requires room > 0 && n < Pow128(room)
    ensures |EncodeVar(n)| <= room
    ensures DecodeGroups(EncodeVar(n) + rest, room) == Some((n, |EncodeVar(n)|))
    decreases room
  {
    if n >= 128 {
      GroupsRoundTrip(n / 128, rest, room - 1);
      assert (EncodeVar(n) + rest)[1..] == EncodeVar(n / 128) + rest;
    }
  }

  /** Decoding undoes encoding for every 64-bit value, whatever bytes follow (prefix-freeness). */
  lemma VarRoundTrip(n: nat, rest: Bytes)
    requires n < U64
    ensures |EncodeVar(n)| <= MAX_VAR_LEN
    ensures DecodeVar(EncodeVar(n) + rest) == Some((n, |EncodeVar(n)|))
  {
    assert Pow128(2) == 16384;
    assert Pow128(4) == 16384 * 16384;
    assert Pow128(6) == 16384 * 16384 * 16384;
    assert Pow128(8) == 16384 * 16384 * 16384 * 16384;
    assert Pow128(10) == 16384 * 16384 * 16384 * 16384 * 16384;
    GroupsRoundTrip(n, rest, MAX_VAR_LEN);
  }

  /** `VarRoundTrip` for an encoding found inside a buffer. */
  lemma VarAt(b: Bytes, at: nat, n: nat)
    requires n < U64
    requires at + |EncodeVar(n)| <= |b| && b[at..at + |EncodeVar(n)|] == EncodeVar(n)
    ensures DecodeVar(b[at..]) == Some((n, |EncodeVar(n)|))
  {
    var len := |EncodeVar(n)|;
    assert b[at..] == EncodeVar(n) + b[at + len..];
    VarRoundTrip(n, b[at + len..]);
  }

  lemma MulSign(d: int, r: nat)
    requires r >= 1
    ensures d >= 1 ==> d * r >= r
    ensures d <= -1 ==> d * r + r <= 0
  {
  }

  lemma ModOf(q: nat, r: nat, m: nat)
    requires m < r
    ensures (q * r + m) % r == m && (q * r + m) / r == q
  {
    var n := q * r + m;
    var d := n / r - q;
    assert n == (n / r) * r + n % r;
    assert (n / r) * r == q * r + d * r;
    MulSign(d, r);
  }

  lemma Regroup(a: nat, b: nat, q: nat, r: nat)
    ensures a * (b * q + r) == q * (a * b) + a * r
  {
    assert a * (b * q) == q * (a * b);
  }

  lemma RoomForRest(a: nat, b: nat, r: nat)
    requires r < b
    ensures a * r + a <= a * b
  {
    assert a * (r + 1) <= a * b;
  }

  lemma DivideTwice(n: nat, a: nat, b: nat)
    requires a > 0 && b > 0
    ensures a * b > 0 && n / a / b == n / (a * b)
  {
    var m, rest := n / a, n % a;
    var q, r := m / b, m % b;
    DivideAgain(n, a, b, q, r, rest);
  }

  lemma DivideAgain(n: nat, a: nat, b: nat, q: nat, r: nat, rest: nat)
    requires a > 0 && b > 0 && r < b && rest < a
    requires n == a * (b * q + r) + rest
    ensures a * b > 0 && n / (a * b) == q
  {
    Regroup(a, b, q, r);
    RoomForRest(a, b, r);
    ModOf(q, a * b, a * r + rest);
  }

  /**
   The encoding itself: byte `i` holds the seven bits of weight 128^i, and has its high bit set unless it
   is the last; no shorter one would do.
   */
  lemma {:induction false} VarDigits(n: nat, i: nat)
    requires i < |EncodeVar(n)|
    ensures Pow128(i) > 0
    ensures EncodeVar(n)[i] == n / Pow128(i) % 128 + (if i + 1 < |EncodeVar(n)| then 128 else 0)
    ensures i > 0 ==> n >= Pow128(i)
    decreases i
  {
    if i > 0 {
      VarDigits(n / 128, i - 1);
      DivideTwice(n, 128, Pow128(i - 1));
    }
  }

  // ---------- fixed-width integers ----------

  // The low `width` bytes of `n`: larger values are truncated, as by the source's casts.
  function EncodeFixed(n: nat, width: nat): (s: Bytes)
    ensures |s| == width
  {
    if width == 0 then [] else [n % 256] + EncodeFixed(n / 256, width - 1)
  }

  function DecodeFixed(s: Bytes): nat {
    if s == [] then 0 else s[0] + 256 * DecodeFixed(s[1..])
  }

  function Pow256(k: nat): nat {
    if k == 0 then 1 else 256 * Pow256(k - 1)
  }

  lemma {:induction false} FixedRoundTripWidth(n: nat, width: nat)
    requires n < Pow256(width)
    ensures DecodeFixed(EncodeFixed(n, width)) == n
    decreases width
  {
    if width > 0 {
      FixedRoundTripWidth(n / 256, width - 1);
      assert EncodeFixed(n, width)[1..] == EncodeFixed(n / 256, width - 1);
    }
  }

  /** Little endian: byte `i` holds the bits of weight 256^i. */
  lemma {:induction false} FixedDigits(n: nat, width: nat, i: nat)
    requires i < width
    ensures Pow256(i) > 0 && EncodeFixed(n, width)[i] == n / Pow256(i) % 256
    decreases i
  {
    if i > 0 {
      FixedDigits(n / 256, width - 1, i - 1);
      DivideTwice(n, 256, Pow256(i - 1));
    }
  }

  lemma Fixed32RoundTrip(n: nat)
    requires n < U32
    ensures DecodeFixed(EncodeFixed(n, 4)) == n
  {
    assert Pow256(2) == 65536;
    assert Pow256(4) == U32;
    FixedRoundTripWidth(n, 4);
  }

  lemma Fixed64RoundTrip(n: nat)
    requires n < U64
    ensures DecodeFixed(EncodeFixed(n, 8)) == n
  {
    assert Pow256(2) == 65536;
    assert Pow256(4) == U32;
    assert Pow256(6) == U32 * 65536;
    assert Pow256(8) == U64;
    FixedRoundTripWidth(n, 8);
  }

  lemma {:induction false} DecodeFixedBound(s: Bytes)
    ensures DecodeFixed(s) < Pow256(|s|)
  {
    if s != [] {
      DecodeFixedBound(s[1..]);
    }
  }

  lemma Decode32Bound(s: Bytes)
    requires |s| == 4
    ensures DecodeFixed(s) < U32
  {
    assert Pow256(2) == 65536;
    assert Pow256(4) == U32;
    DecodeFixedBound(s);
  }

  // ---------- block handles ----------

  /** A pointer into a table file. */
  datatype BlockHandle = BlockHandle(offset: nat, size: nat) {

    function Encode(): (s: Bytes)
      ensures |s| >= 2
    {
      EncodeVar(offset) + EncodeVar(size)
    }
  }

  /** `BlockHandle::decode`: the handle and the number of bytes read. */
  function DecodeHandle(from: Bytes): (r: Option<(BlockHandle, nat)>)
    ensures r.Some? ==> r.value.1 <= |from|
  {
    match DecodeVar(from)
    case None => None
    case Some((off, offSize)) =>
      match DecodeVar(from[offSize..])
      case None => None
      case Some((sz, szSize)) => Some((BlockHandle(off, sz), offSize + szSize))
  }

  lemma HandleRoundTrip(h: BlockHandle, rest: Bytes)
    requires h.offset < U64 && h.size < U64
    ensures |h.Encode()| <= 2 * MAX_VAR_LEN
    ensures DecodeHandle(h.Encode() + rest) == Some((h, |h.Encode()|))
  {
    VarRoundTrip(h.offset, EncodeVar(h.size) + rest);
    VarRoundTrip(h.size, rest);
    var s := h.Encode() + rest;
    assert s == EncodeVar(h.offset) + (EncodeVar(h.size) + rest);
    assert s[|EncodeVar(h.offset)|..] == EncodeVar(h.size) + rest;
  }

  // Handles below 2^32 need at most five bytes per number.
  lemma HandleFitsScratch(h: BlockHandle)
    requires h.offset < U32 && h.size < U32
    ensures |h.Encode()| <= 10
  {
    assert Pow128(2) == 16384;
    assert Pow128(5) == 16384 * 16384 * 128;
    GroupsRoundTrip(h.offset, [], 5);
    GroupsRoundTrip(h.size, [], 5);
  }

  // `dst` holds `bytes` from position `at` on.
  predicate Holds(dst: array<byte>, at: nat, bytes: Bytes)
    reads dst
  {
    at + |bytes| <= dst.Length && forall k :: 0 <= k < |bytes| ==> dst[at + k] == bytes[k]
  }

  // Only positions `from` up to `to` of `dst` have changed.
  twostate predicate OnlyChanged(dst: array<byte>, from: nat, to: nat)
    reads dst
  {
    forall k :: 0 <= k < dst.Length && !(from <= k < to) ==> dst[k] == old(dst[k])
  }

  /** `encode_var` into a buffer, least significant group first. */
  method EncodeVarTo(n: nat, dst: array<byte>, at: nat) returns (len: nat)
    requires at + |EncodeVar(n)| <= dst.Length
    modifies dst
    ensures len == |EncodeVar(n)|
    ensures Holds(dst, at, EncodeVar(n)) && OnlyChanged(dst, at, at + len)
  {
    ghost var bytes := EncodeVar(n);
    var rest := n;
    len := 0;
    while rest >= 128
      invariant len <= |bytes| && bytes[len..] == EncodeVar(rest)
      invariant forall k :: 0 <= k < len ==> dst[at + k] == bytes[k]
      invariant OnlyChanged(dst, at, at + len)
    {
      dst[at + len] := 128 + rest % 128;
      assert bytes[len..][0] == bytes[len] && bytes[len..][1..] == bytes[len + 1..];
      rest := rest / 128;
      len := len + 1;
    }
    dst[at + len] := rest;
    assert bytes[len..][0] == bytes[len];
    len := len + 1;
  }

  /** `BlockHandle::encode_to`. */
  method EncodeHandleTo(h: BlockHandle, dst: array<byte>, at: nat) returns (len: nat)
    requires at + |h.Encode()| <= dst.Length
    modifies dst
    ensures len == |h.Encode()|
    ensures Holds(dst, at, h.Encode()) && OnlyChanged(dst, at, at + len)
  {
    hide EncodeVar;
    var off := EncodeVarTo(h.offset, dst, at);
    var sz := EncodeVarTo(h.size, dst, at + off);
    len := off + sz;
  }

  // ---------- footer ----------

  const FOOTER_LENGTH: nat := 40
  const FULL_FOOTER_LENGTH: nat := 48
  const MAGIC: Bytes := [0x57, 0xfb, 0x80, 0x8b, 0x24, 0x75, 0x47, 0xdb]

  datatype Footer = Footer(metaIndex: BlockHandle, index: BlockHandle) {

    predicate Wide64() {
      metaIndex.offset < U64 && metaIndex.size < U64 && index.offset < U64 && index.size < U64
    }

    /** The bytes a footer occupies: both handles, zero padding to 40 bytes, the magic number. */
    function Encode(): (s: Bytes)
      ensures |metaIndex.Encode()| + |index.Encode()| <= FOOTER_LENGTH ==> |s| == FULL_FOOTER_LENGTH
    {
      var handles := metaIndex.Encode() + index.Encode();
      handles + seq(if |handles| < FOOTER_LENGTH then FOOTER_LENGTH - |handles| else 0, _ => 0) + MAGIC
    }
  }

  /** `Footer::decode`; `None` where the source's assertions or unwraps fail. */
  function DecodeFooter(from: Bytes): Option<Footer> {
    if |from| < FULL_FOOTER_LENGTH || from[FOOTER_LENGTH..] != MAGIC then None
    else
      match DecodeHandle(from)
      case None => None
      case Some((meta, metaLen)) =>
        match DecodeHandle(from[metaLen..])
        case None => None
        case Some((ix, _)) => Some(Footer(meta, ix))
  }

  /** The last eight bytes of a footer are the table magic number. */
  lemma MagicNumber(f: Footer)
    ensures |f.Encode()| >= 8 && DecodeFixed(f.Encode()[|f.Encode()| - 8..]) == 0xdb4775248b80fb57
  {
    assert f.Encode()[|f.Encode()| - 8..] == MAGIC;
    assert DecodeFixed(MAGIC[7..]) == 0xdb;
    assert DecodeFixed(MAGIC[6..]) == 0xdb47;
    assert DecodeFixed(MAGIC[5..]) == 0xdb4775;
    assert DecodeFixed(MAGIC[4..]) == 0xdb477524;
    assert DecodeFixed(MAGIC[3..]) == 0xdb4775248b;
    assert DecodeFixed(MAGIC[2..]) == 0xdb4775248b80;
    assert DecodeFixed(MAGIC[1..]) == 0xdb4775248b80fb;
  }

  /** Anything else in their place is not a footer. */
  lemma OtherMagicIsRefused(from: Bytes)
    requires |from| == FULL_FOOTER_LENGTH && DecodeFixed(from[FOOTER_LENGTH..]) != 0xdb4775248b80fb57
    ensures DecodeFooter(from) == None
  {
    var f := Footer(BlockHandle(0, 0), BlockHandle(0, 0));
    MagicNumber(f);
    assert f.Encode()[|f.Encode()| - 8..] == MAGIC;
  }

  /** Two encoded handles always fit in 40 bytes, and `decode` returns the footer encoded. */
  lemma FooterRoundTrip(f: Footer)
    requires f.Wide64()
    ensures |f.metaIndex.Encode()| + |f.index.Encode()| <= FOOTER_LENGTH
    ensures DecodeFooter(f.Encode()) == Some(f)
  {
    HandleRoundTrip(f.metaIndex, []);
    HandleRoundTrip(f.index, []);
    hide BlockHandle.Encode, DecodeHandle, EncodeVar, DecodeVar;
    var m, i := f.metaIndex.Encode(), f.index.Encode();
    var pad := seq(FOOTER_LENGTH - |m + i|, _ => 0);
    var s := f.Encode();
    assert s == (m + i + pad) + MAGIC;
    assert s[FOOTER_LENGTH..] == MAGIC;
    HandleRoundTrip(f.metaIndex, i + pad + MAGIC);
    assert s == m + (i + pad + MAGIC);
    HandleRoundTrip(f.index, pad + MAGIC);
    assert s[|m|..] == i + (pad + MAGIC);
  }

  /** `Footer::encode`: fills the first 48 bytes of `to` and leaves the rest. */
  method EncodeFooterTo(f: Footer, to: array<byte>)
    requires f.Wide64()
    requires to.Length >= FULL_FOOTER_LENGTH
    modifies to
    ensures |f.metaIndex.Encode()| + |f.index.Encode()| <= FOOTER_LENGTH
    ensures to[..FULL_FOOTER_LENGTH] == f.Encode()
    ensures OnlyChanged(to, 0, FULL_FOOTER_LENGTH)
  {
    hide EncodeVar, BlockHandle.Encode, DecodeFooter;
    FooterRoundTrip(f);
    ghost var handles := f.metaIndex.Encode() + f.index.Encode();
    var s1 := EncodeHandleTo(f.metaIndex, to, 0);
    var s2 := EncodeHandleTo(f.index, to, s1);
    assert Holds(to, 0, handles);
    for i := s1 + s2 to FOOTER_LENGTH
      invariant Holds(to, 0, handles) && OnlyChanged(to, 0, FULL_FOOTER_LENGTH)
      invariant forall k :: s1 + s2 <= k < i ==> to[k] == 0
    {
      to[i] := 0;
    }
    for i := FOOTER_LENGTH to FULL_FOOTER_LENGTH
      invariant Holds(to, 0, handles) && OnlyChanged(to, 0, FULL_FOOTER_LENGTH)
      invariant forall k :: s1 + s2 <= k < FOOTER_LENGTH ==> to[k] == 0
      invariant forall k :: FOOTER_LENGTH <= k < i ==> to[k] == MAGIC[k - FOOTER_LENGTH]
    {
      to[i] := MAGIC[i - FOOTER_LENGTH];
    }
  }
}

/**
 `DefaultCmp`: separators between adjacent keys, used as the keys of the index block.
 */
module Comparator {
  import opened Bytes

  function Min(a: nat, b: nat): nat {
    if a < b then a else b
  }

  // The first position from `d` on where raising a byte of `a` by one stays below `b`.
  function SepFrom(a: Bytes, b: Bytes, d: nat): Bytes
    requires d <= |a| && d <= |b|
    decreases |a| - d
  {
    if d < Min(|a|, |b|) then
      if a[d] < 0xff && a[d] + 1 < b[d] then a[..d] + [a[d] + 1]
      else SepFrom(a, b, d + 1)
    else a + [0]
  }

  function ShortestSep(a: Bytes, b: Bytes): Bytes {
    if a == b then a else SepFrom(a, b, Lcp(a, b))
  }

  function SuccFrom(a: Bytes, i: nat): Bytes
    requires i <= |a|
    decreases |a| - i
  {
    if i == |a| then a + [255]
    else if a[i] != 0xff then a[..i] + [a[i] + 1]
    else SuccFrom(a, i + 1)
  }

  function ShortSucc(a: Bytes): Bytes {
    SuccFrom(a, 0)
  }

  // What raising byte `d` gives when the keys first differ at or before `d`.
  lemma RaisedIsBetween(a: Bytes, b: Bytes, d: nat)
    requires Lt(a, b) && Lcp(a, b) <= d < Min(|a|, |b|)
    requires a[d] < 0xff && a[d] + 1 < b[d]
    ensures Lt(a, a[..d] + [a[d] + 1]) && Lt(a[..d] + [a[d] + 1], b)
  {
    var sep := a[..d] + [a[d] + 1];
    LtIntro(a, sep, d);
    var p := LtElim(a, b);
    LcpUnique(a, b, p);
    assert sep[..p] == a[..p];
    LtIntro(sep, b, p);
  }

  lemma {:induction false} SepFromBetween(a: Bytes, b: Bytes, d: nat)
    requires Lt(a, b) && Lcp(a, b) <= d <= Min(|a|, |b|)
    ensures var sep := SepFrom(a, b, d);
            Lt(a, sep) && (Lt(sep, b) || (sep == b && b == a + [0])) && |sep| <= |a| + 1
    decreases |a| - d
  {
    if d < Min(|a|, |b|) {
      if a[d] < 0xff && a[d] + 1 < b[d] {
        RaisedIsBetween(a, b, d);
      } else {
        SepFromBetween(a, b, d + 1);
      }
    } else {
      var sep := a + [0];
      LtIntro(a, sep, |a|);
      var p := LtElim(a, b);
      LcpUnique(a, b, p);
      if p < |a| {
        LtIntro(sep, b, p);
      } else if b[p] > 0 {
        LtIntro(sep, b, p);
      } else if |b| > p + 1 {
        assert b[..p + 1] == b[..p] + [0];
        LtIntro(sep, b, p + 1);
      } else {
        assert b == b[..p] + [0];
      }
    }
  }

  /**
   For `a < b` the separator lies above `a` and at most at `b`; it coincides with `b` exactly
   when `b` is `a` followed by a zero byte, and is at most one byte longer than `a`.
   */
  lemma SeparatorLaw(a: Bytes, b: Bytes)
    requires Lt(a, b)
    ensures Lt(a, ShortestSep(a, b)) && Le(ShortestSep(a, b), b)
    ensures ShortestSep(a, b) == b <==> b == a + [0]
    ensures |ShortestSep(a, b)| <= |a| + 1
  {
    TotalOrder(a, b, b);
    var sep := ShortestSep(a, b);
    TotalOrder(sep, b, b);
    SepFromBetween(a, b, Lcp(a, b));
    if b == a + [0] {
      LcpUnique(a, b, |a|);
    }
  }

  predicate Apart(x: int, y: int) {
    x + 1 < y
  }

  /** From where `a` and `b` differ on, `e` is the first position at which `a`'s byte raised by one is below `b`'s. */
  ghost predicate FirstRaise(a: Bytes, b: Bytes, e: nat) {
    && Lcp(a, b) <= e < |a| && e < |b|
    && Apart(a[e], b[e])
    && forall x :: Lcp(a, b) <= x < e ==> !Apart(a[x], b[x])
  }

  /** The very bytes `find_shortest_sep` gives, whatever the order of the keys. */
  ghost predicate IsShortestSep(sep: Bytes, a: Bytes, b: Bytes) {
    && (a == b ==> sep == a)
    && (forall e: nat :: FirstRaise(a, b, e) ==> sep == a[..e] + [a[e] + 1])
    && (a != b && (forall e: nat :: !FirstRaise(a, b, e)) ==> sep == a + [0])
  }

  lemma {:induction false} SepFromExact(a: Bytes, b: Bytes, d: nat, e: nat)
    requires Lcp(a, b) <= d <= Min(|a|, |b|)
    requires forall x :: Lcp(a, b) <= x < d ==> !Apart(a[x], b[x])
    ensures FirstRaise(a, b, e) ==> SepFrom(a, b, d) == a[..e] + [a[e] + 1]
    ensures (forall x: nat :: !FirstRaise(a, b, x)) ==> SepFrom(a, b, d) == a + [0]
    decreases |a| - d
  {
    if d < Min(|a|, |b|) {
      if Apart(a[d], b[d]) {
        assert FirstRaise(a, b, d);
      } else {
        SepFromExact(a, b, d + 1, e);
      }
    }
  }

  /** The separator, byte by byte: raised at the first possible place, or one zero byte longer. */
  lemma ShortestSepExact(a: Bytes, b: Bytes)
    ensures IsShortestSep(ShortestSep(a, b), a, b)
  {
    forall e: nat | FirstRaise(a, b, e) ensures ShortestSep(a, b) == a[..e] + [a[e] + 1] {
      assert a[e] != b[e];
      SepFromExact(a, b, Lcp(a, b), e);
    }
    SepFromExact(a, b, Lcp(a, b), 0);
  }

  /** `e` is the position of the first byte that can be raised. */
  ghost predicate FirstBelow255(a: Bytes, e: nat) {
    e < |a| && a[e] < 255 && forall x :: 0 <= x < e ==> a[x] == 255
  }

  ghost predicate IsShortSucc(succ: Bytes, a: Bytes) {
    && (forall e: nat :: FirstBelow255(a, e) ==> succ == a[..e] + [a[e] + 1])
    && ((forall x :: 0 <= x < |a| ==> a[x] == 255) ==> succ == a + [255])
  }

  /** The successor, byte by byte: cut off behind the first byte that can be raised, or one byte longer. */
  lemma {:induction false} SuccFromExact(a: Bytes, i: nat)
    requires i <= |a| && forall x :: 0 <= x < i ==> a[x] == 255
    ensures IsShortSucc(SuccFrom(a, i), a)
    decreases |a| - i
  {
    if i < |a| && a[i] == 255 {
      SuccFromExact(a, i + 1);
    }
  }

  lemma {:induction false} SuccFromAbove(a: Bytes, i: nat)
    requires i <= |a|
    ensures Lt(a, SuccFrom(a, i))
    decreases |a| - i
  {
    if i == |a| {
      LtIntro(a, a + [255], i);
    } else if a[i] != 0xff {
      LtIntro(a, a[..i] + [a[i] + 1], i);
    } else {
      SuccFromAbove(a, i + 1);
    }
  }

  /** The short successor of any key is above it. */
  lemma SuccessorLaw(a: Bytes)
    ensures Lt(a, ShortSucc(a))
  {
    SuccFromAbove(a, 0);
  }

  /** `find_shortest_sep`. The inner assertion is the source's own. */
  method FindShortestSep(a: Bytes, b: Bytes) returns (sep: Bytes)
    requires Le(a, b)
    ensures sep == ShortestSep(a, b) && IsShortestSep(sep, a, b)
    ensures a != b ==> Lt(a, sep) && Le(sep, b) && (sep == b <==> b == a + [0])
    ensures a == b ==> sep == a
  {
    ShortestSepExact(a, b);
    hide IsShortestSep;
    if a == b {
      return a;
    }
    TotalOrder(a, b, b);
    SeparatorLaw(a, b);
    var min := Min(|a|, |b|);
    var diffAt := 0;
    while diffAt < min && a[diffAt] == b[diffAt]
      invariant diffAt <= min && a[..diffAt] == b[..diffAt]
    {
      assert a[..diffAt + 1] == a[..diffAt] + [a[diffAt]];
      assert b[..diffAt + 1] == b[..diffAt] + [b[diffAt]];
      diffAt := diffAt + 1;
    }
    LcpUnique(a, b, diffAt);
    while diffAt < min
      invariant Lcp(a, b) <= diffAt <= min
      invariant SepFrom(a, b, diffAt) == ShortestSep(a, b)
    {
      var diff := a[diffAt];
      if diff < 0xff && diff + 1 < b[diffAt] {
        sep := a[0..diffAt + 1];
        sep := sep[diffAt := sep[diffAt] + 1];
        assert sep == a[..diffAt] + [a[diffAt] + 1];
        RaisedIsBetween(a, b, diffAt);
        assert Cmp(sep, b) == Less;
        return sep;
      }
      diffAt := diffAt + 1;
    }
    sep := a + [0];
  }

  /** `find_short_succ`. */
  method FindShortSucc(a: Bytes) returns (result: Bytes)
    ensures result == ShortSucc(a) && IsShortSucc(result, a) && Lt(a, result)
  {
    SuccessorLaw(a);
    SuccFromExact(a, 0);
    hide IsShortSucc;
    result := a;
    for i := 0 to |a|
      invariant result == a && SuccFrom(a, i) == ShortSucc(a)
    {
      if a[i] != 0xff {
        result := result[i := result[i] + 1];
        result := result[..i + 1];
        assert result == a[..i] + [a[i] + 1];
        return;
      }
    }
    result := result + [255];
  }
}

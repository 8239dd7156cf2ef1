/**
 Facts about slices of sequences.
 */
module Seqs {

  lemma SubSlice<T>(b: seq<T>, o: nat, e: nat, x: nat, y: nat)
    requires o <= e <= |b| && x <= y <= e - o
    ensures b[o..e][x..y] == b[o + x..o + y]
  {
    var l, r := b[o..e][x..y], b[o + x..o + y];
    assert |l| == |r|;
    forall i | 0 <= i < |l| ensures l[i] == r[i] {
      assert l[i] == b[o..e][x + i];
    }
  }

  // A slice that lies inside the middle part of a concatenation.
  lemma SliceOfMiddle<T>(a: seq<T>, m: seq<T>, c: seq<T>, x: nat, y: nat)
    requires x <= y <= |m|
    ensures (a + m + c)[|a| + x..|a| + y] == m[x..y]
  {
  }

  lemma SplitFive<T>(w: seq<T>, v1: seq<T>, v2: seq<T>, v3: seq<T>, k: seq<T>, v: seq<T>)
    requires w == v1 + v2 + v3 + k + v
    ensures var o2 := |v1|;
            var o3 := o2 + |v2|;
            var o4 := o3 + |v3|;
            var o5 := o4 + |k|;
            && o5 + |v| == |w|
            && w[0..o2] == v1 && w[o2..o3] == v2 && w[o3..o4] == v3 && w[o4..o5] == k && w[o5..|w|] == v
  {
  }

  // Five consecutive pieces of `b[o..end]`, addressed within `b`.
  lemma FiveParts<T>(b: seq<T>, o: nat, end: nat, v1: seq<T>, v2: seq<T>, v3: seq<T>, k: seq<T>, v: seq<T>)
    requires o <= end <= |b| && b[o..end] == v1 + v2 + v3 + k + v
    ensures var o2 := o + |v1|;
            var o3 := o2 + |v2|;
            var o4 := o3 + |v3|;
            var o5 := o4 + |k|;
            && o5 + |v| == end
            && b[o..o2] == v1 && b[o2..o3] == v2 && b[o3..o4] == v3 && b[o4..o5] == k && b[o5..end] == v
  {
    var w := b[o..end];
    var o2 := |v1|;
    var o3 := o2 + |v2|;
    var o4 := o3 + |v3|;
    var o5 := o4 + |k|;
    SplitFive(w, v1, v2, v3, k, v);
    SubSlice(b, o, end, 0, o2);
    SubSlice(b, o, end, o2, o3);
    SubSlice(b, o, end, o3, o4);
    SubSlice(b, o, end, o4, o5);
    SubSlice(b, o, end, o5, |w|);
  }

  /** `out` are the elements of `s` from `x` up to `y`. */
  predicate IsSlice<T(==)>(out: seq<T>, s: seq<T>, x: nat, y: nat) {
    x <= y <= |s| && out == s[x..y]
  }

  lemma SliceStarts<T>(s: seq<T>, x: nat)
    requires x <= |s|
    ensures IsSlice([], s, x, x)
  {
  }

  lemma SliceGrows<T>(out: seq<T>, s: seq<T>, x: nat, y: nat)
    requires IsSlice(out, s, x, y) && y < |s|
    ensures IsSlice(out + [s[y]], s, x, y + 1)
  {
  }

  lemma SliceEnds<T>(out: seq<T>, s: seq<T>, x: nat)
    requires IsSlice(out, s, x, |s|)
    ensures x <= |s| && out == s[x..]
  {
  }

  lemma Assoc<T>(a: seq<T>, b: seq<T>, c: seq<T>)
    ensures a + (b + c) == a + b + c
  {
  }

  lemma SplitPrefix<T>(a: seq<T>, s: seq<T>)
    requires a <= s
    ensures a + s[|a|..] == s
  {
  }

  lemma AppendNothing<T>(s: seq<T>)
    ensures s + [] == s
  {
  }

  lemma PrependNothing<T>(s: seq<T>)
    ensures [] + s == s
  {
  }

  lemma DropNothing<T>(s: seq<T>)
    ensures s[0..] == s
  {
  }

  lemma Uncons<T>(s: seq<T>, i: nat)
    requires i < |s|
    ensures s[i..] == [s[i]] + s[i + 1..]
  {
  }

  lemma SplitAround<T>(s: seq<T>, k: nat)
    requires k < |s|
    ensures s == s[..k] + [s[k]] + s[k + 1..]
  {
  }

  // A position inside the middle part of a concatenation, and what is behind it.
  lemma InMiddle<T>(a: seq<T>, m: seq<T>, c: seq<T>, i: nat)
    requires i < |m|
    ensures |a| + i < |a + m + c| && (a + m + c)[|a| + i] == m[i]
    ensures (a + m + c)[|a| + i + 1..] == m[i + 1..] + c
  {
  }

  // Where the element at position `j` came from when element `i` moved to the front.
  function Origin(i: nat, j: nat): nat {
    if j == 0 then i else if j <= i then j - 1 else j
  }

  lemma MovedFrom<T>(s: seq<T>, i: nat)
    requires i < |s|
    ensures var moved := [s[i]] + s[..i] + s[i + 1..];
            && |moved| == |s|
            && (forall j :: 0 <= j < |s| ==> moved[j] == s[Origin(i, j)])
            && [s[i]] + (s[..i] + s[i + 1..]) == moved
  {
  }
}

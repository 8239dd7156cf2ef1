/**
 The abstract cursor a block iterator refines: the ordinal visited last, and whether it is current.

 The ordinal survives a reset, as `current_entry_offset` does: `Prev` of an invalid cursor moves in
 front of the entry visited last.
 */
module Cursors {
  import opened Bytes

  datatype Cursor = Cursor(last: nat, valid: bool) {

    /** A possible position in a list of `n` entries. */
    predicate Fits(n: nat) {
      if n == 0 then this == Cursor(0, false) else last < n
    }

    /** Ordinal an advance goes to. */
    function Next(): nat {
      if valid then last + 1 else 0
    }

    function Advance(n: nat): Cursor {
      if Next() < n then Cursor(Next(), true) else Cursor(last, false)
    }

    function Reset(): Cursor {
      Cursor(last, false)
    }

    function Prev(): Cursor {
      if last > 0 then Cursor(last - 1, true) else Cursor(last, false)
    }

    function Seek(es: seq<Entry>, to: Bytes): Cursor {
      var q := LowerBound(es, to);
      if q < |es| then Cursor(q, true) else AtEnd(|es|)
    }

    static function AtEnd(n: nat): Cursor {
      Cursor(if n == 0 then 0 else n - 1, false)
    }

    static function SeekToLast(n: nat): Cursor
      requires n > 0
    {
      Cursor(n - 1, true)
    }

    function Current(es: seq<Entry>): Option<Entry>
      requires Fits(|es|)
    {
      if valid then Some(es[last]) else None
    }
  }

  const FRESH := Cursor(0, false)

  // ---------- runs ----------

  datatype Op = DoAdvance | DoPrev | DoReset | DoSeek(to: Bytes) | DoSeekToLast

  /** `seek_to_last` asserts that there is an entry to stop at. */
  predicate Allowed(es: seq<Entry>, op: Op) {
    op.DoSeekToLast? ==> es != []
  }

  function Step(es: seq<Entry>, c: Cursor, op: Op): (c': Cursor)
    requires c.Fits(|es|) && Allowed(es, op)
    ensures c'.Fits(|es|)
  {
    match op
    case DoAdvance => c.Advance(|es|)
    case DoPrev => c.Prev()
    case DoReset => c.Reset()
    case DoSeek(to) => c.Seek(es, to)
    case DoSeekToLast => Cursor.SeekToLast(|es|)
  }

  /** What a client reads with `current` after each operation of a run. */
  function Observe(es: seq<Entry>, c: Cursor, ops: seq<Op>): seq<Option<Entry>>
    requires c.Fits(|es|)
    requires forall op :: op in ops ==> Allowed(es, op)
    decreases |ops|
  {
    if ops == [] then []
    else
      var c' := Step(es, c, ops[0]);
      [c'.Current(es)] + Observe(es, c', ops[1..])
  }

  function After(es: seq<Entry>, c: Cursor, ops: seq<Op>): (c': Cursor)
    requires c.Fits(|es|)
    requires forall op :: op in ops ==> Allowed(es, op)
    ensures c'.Fits(|es|)
    decreases |ops|
  {
    if ops == [] then c else After(es, Step(es, c, ops[0]), ops[1..])
  }

  lemma {:induction false} ObserveSnoc(es: seq<Entry>, c: Cursor, ops: seq<Op>, op: Op)
    requires c.Fits(|es|)
    requires forall o :: o in ops + [op] ==> Allowed(es, o)
    ensures forall o :: o in ops ==> Allowed(es, o)
    ensures var c' := Step(es, After(es, c, ops), op);
            && Observe(es, c, ops + [op]) == Observe(es, c, ops) + [c'.Current(es)]
            && After(es, c, ops + [op]) == c'
    decreases |ops|
  {
    assert forall o :: o in ops ==> o in ops + [op];
    assert op in ops + [op];
    if ops != [] {
      assert ops[0] in ops;
      assert (ops + [op])[1..] == ops[1..] + [op];
      ObserveSnoc(es, Step(es, c, ops[0]), ops[1..], op);
    } else {
      assert (ops + [op])[1..] == [];
    }
  }

  // ---------- laws ----------

  /** Whatever is current is an entry of the list, and it is the one the last move named. */
  lemma PrevUndoesAdvance(c: Cursor, n: nat)
    requires c.Fits(n) && c.valid && c.last + 1 < n
    ensures c.Advance(n).Prev() == c
    ensures c.last > 0 ==> c.Prev().Advance(n) == c
  {
  }

  /**
   A seek stops at the first entry not below the target. Without one it ends behind the last entry, from
   where `prev` passes over that entry to the one before it.
   */
  lemma SeekOutcome(es: seq<Entry>, c: Cursor, to: Bytes)
    requires c.Fits(|es|)
    ensures var c' := c.Seek(es, to);
            && c'.Fits(|es|)
            && (c'.valid <==> exists e :: e in es && !Lt(e.key, to))
            && (c'.valid ==> !Lt(es[c'.last].key, to) && forall j :: 0 <= j < c'.last ==> Lt(es[j].key, to))
            && (!c'.valid && |es| >= 2 ==> c'.Prev().Current(es) == Some(es[|es| - 2]))
  {
    var q := LowerBound(es, to);
    if q < |es| {
      assert es[q] in es;
    } else {
      forall e | e in es ensures Lt(e.key, to) {
        var j :| 0 <= j < |es| && es[j] == e;
      }
    }
  }

  /** What repeated `next` calls yield until the first `None`. */
  function Drain(es: seq<Entry>, c: Cursor): seq<Entry>
    requires c.Fits(|es|)
    decreases |es| - c.Next()
  {
    var c' := c.Advance(|es|);
    if c'.valid then [es[c'.last]] + Drain(es, c') else []
  }

  /** Forward iteration yields every entry behind the cursor once, in order. */
  lemma {:induction false} DrainIsSuffix(es: seq<Entry>, c: Cursor)
    requires c.Fits(|es|)
    ensures c.Next() <= |es| && Drain(es, c) == es[c.Next()..]
    decreases |es| - c.Next()
  {
    if c.Advance(|es|).valid {
      DrainIsSuffix(es, c.Advance(|es|));
    }
  }

  /** A reset cursor starts over forwards; backwards it goes on from where it was. */
  lemma ResetOutcome(es: seq<Entry>, c: Cursor)
    requires c.Fits(|es|)
    ensures var c' := c.Reset();
            && c'.Fits(|es|) && c'.Current(es) == None
            && Drain(es, c') == es
            && c'.Prev() == c.Prev()
  {
    DrainIsSuffix(es, c.Reset());
  }

  /** Run out of entries, a cursor is invalid; `seek_to_last` goes to the last entry, which is not passed over. */
  lemma EndOutcome(es: seq<Entry>, c: Cursor)
    requires |es| > 0 && c.Fits(|es|)
    ensures var last := Cursor.SeekToLast(|es|);
            && last.Current(es) == Some(es[|es| - 1])
            && last.Advance(|es|) == Cursor.AtEnd(|es|) && Cursor.AtEnd(|es|).Current(es) == None
            && (c.valid && !c.Advance(|es|).valid ==> c == last)
  {
  }

  /** What repeated `prev` calls yield until the first `false`. */
  function DrainBack(es: seq<Entry>, c: Cursor): seq<Entry>
    requires c.Fits(|es|)
    decreases c.last
  {
    var c' := c.Prev();
    if c.last > 0 then [es[c'.last]] + DrainBack(es, c') else []
  }

  /** Backward iteration yields the entries before the last visited one, in reverse. */
  lemma {:induction false} DrainBackIsReverse(es: seq<Entry>, c: Cursor, k: nat)
    requires c.Fits(|es|)
    ensures |DrainBack(es, c)| == c.last
    ensures k < c.last ==> DrainBack(es, c)[k] == es[c.last - 1 - k]
    decreases c.last
  {
    if c.last > 0 {
      DrainBackIsReverse(es, c.Prev(), if k > 0 then k - 1 else 0);
    }
  }
}

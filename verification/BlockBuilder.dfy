/**
 `BlockBuilder`: the object that grows the bytes of one block.
 */
module BlockBuilding {
  import opened Bytes
  import opened Codec
  import opened BlockFormat

  class BlockBuilder {
    const interval: nat

    var buffer: Bytes
    var restarts: seq<nat>
    var lastKey: Bytes
    var restartCounter: nat
    var counter: nat

    /** The entries added so far. */
    ghost var es: seq<Entry>

    ghost predicate Valid()
      reads this
    {
      && interval >= 1
      && buffer == Data(es, interval)
      && restarts == RestartWords(es, interval)
      && lastKey == (if es == [] then [] else es[|es| - 1].key)
      && restartCounter == Counter(|es|, interval)
      && counter == |es|
    }

    constructor (interval: nat)
      requires interval >= 1
      ensures Valid() && es == [] && this.interval == interval
    {
      this.interval := interval;
      buffer, lastKey := [], [];
      restarts := [0];
      restartCounter, counter := 0, 0;
      es := [];
      new;
      assert RestartWords([], interval) == [0];
    }

    function Entries(): (n: nat)
      requires Valid()
      reads this
      ensures n == |es|
    {
      counter
    }

    function LastKey(): (k: Bytes)
      requires Valid()
      reads this
      ensures es != [] ==> k == es[|es| - 1].key
    {
      lastKey
    }

    /** The estimate is exact: it is the length of what `Finish` returns. */
    function SizeEstimate(): (n: nat)
      requires Valid()
      reads this
      ensures n == |BlockBytes(es, interval)|
    {
      |buffer| + 4 * |restarts| + 4
    }

    // Length of the prefix `key` shares with the previous key.
    method CountShared(key: Bytes) returns (shared: nat)
      ensures shared == Lcp(lastKey, key)
    {
      var smallest := if |lastKey| < |key| then |lastKey| else |key|;
      shared := 0;
      while shared < smallest && lastKey[shared] == key[shared]
        invariant shared <= smallest && lastKey[..shared] == key[..shared]
      {
        assert lastKey[..shared + 1] == lastKey[..shared] + [lastKey[shared]];
        assert key[..shared + 1] == key[..shared] + [key[shared]];
        shared := shared + 1;
      }
      LcpUnique(lastKey, key, shared);
    }

    // Writes one entry behind the buffer.
    method AppendEntry(shared: nat, key: Bytes, val: Bytes)
      requires shared <= |key|
      modifies this`buffer
      ensures buffer == old(buffer) + EntryBytes(shared, Entry(key, val))
    {
      hide EncodeVar;
      var nonShared := |key| - shared;
      buffer := buffer + EncodeVar(shared);
      buffer := buffer + EncodeVar(nonShared);
      buffer := buffer + EncodeVar(|val|);
      buffer := buffer + key[shared..];
      buffer := buffer + val;
      AppendFive(old(buffer), shared, Entry(key, val));
    }

    // Decides how much of `key` is shared with the previous key, starting a restart when due.
    method ChooseShared(key: Bytes) returns (shared: nat)
      requires Valid()
      modifies this`restarts, this`lastKey, this`restartCounter
      ensures shared <= |key| && shared <= |lastKey| && lastKey[..shared] == key[..shared]
      ensures shared == Shared(es + [Entry(key, [])], |es|, interval)
      ensures restarts == RestartWords(es + [Entry(key, [])], interval)
      ensures restartCounter + 1 == Counter(|es| + 1, interval)
    {
      hide Data, Lcp;
      RestartWordsSnoc(es, Entry(key, []), interval);
      CounterStep(|es|, interval);
      CounterClosedForm(|es|, interval);
      assert restartCounter <= interval;
      shared := 0;
      if restartCounter < interval {
        shared := CountShared(key);
      } else {
        restarts := restarts + [|buffer| % U32];
        lastKey := [];
        restartCounter := 0;
      }
      SharedOfNext(es, Entry(key, []), interval, shared);
    }

    method Add(key: Bytes, val: Bytes)
      requires Valid()
      requires es == [] || Lt(es[|es| - 1].key, key)
      modifies this
      ensures Valid()
      ensures es == old(es) + [Entry(key, val)]
    {
      hide EncodeVar, Data, Counter, EntryBytes, RestartWords, Shared, Restarts;
      assert buffer == [] || Cmp(lastKey, key) == Less by { DataEmpty(es, interval); }
      ghost var e := Entry(key, val);
      SameKeySameLayout(es, e, interval);
      var shared := ChooseShared(key);
      AppendEntry(shared, key, val);
      DataSnoc(es, e, interval);

      lastKey := lastKey[..shared];
      lastKey := lastKey + key[shared..];
      assert lastKey == key by { assert key == key[..shared] + key[shared..]; }

      restartCounter := restartCounter + 1;
      counter := counter + 1;
      es := es + [e];
    }

    /** Appends the restart array and its length. The builder is used up. */
    method Finish() returns (contents: Bytes)
      requires Valid()
      modifies this
      ensures contents == BlockBytes(old(es), interval)
    {
      hide EncodeFixed, Data, Restarts;
      var i := 0;
      while i < |restarts|
        invariant i <= |restarts| && restarts == old(restarts)
        invariant buffer == old(buffer) + FixedWords(restarts[..i])
      {
        assert restarts[..i + 1][..i] == restarts[..i];
        buffer := buffer + EncodeFixed(restarts[i], 4);
        i := i + 1;
      }
      assert restarts[..i] == restarts;
      buffer := buffer + EncodeFixed(|restarts|, 4);
      contents := buffer;
    }
  }

  lemma DataEmpty(es: seq<Entry>, r: nat)
    ensures Data(es, r) == [] <==> es == []
  {
  }

  lemma CounterStep(n: nat, r: nat)
    ensures Counter(n + 1, r) == if StartsRestart(n, r) then 1 else Counter(n, r) + 1
  {
  }

  lemma SharedOfNext(es: seq<Entry>, e: Entry, r: nat, shared: nat)
    requires r >= 1
    requires var lastKey := if es == [] then [] else es[|es| - 1].key;
             shared == if StartsRestart(|es|, r) then 0 else Lcp(lastKey, e.key)
    ensures shared == Shared(es + [e], |es|, r)
  {
  }

  // Values do not influence sharing or, at earlier ordinals, offsets.
  lemma SameKeySameLayout(es: seq<Entry>, e: Entry, r: nat)
    ensures Shared(es + [e], |es|, r) == Shared(es + [Entry(e.key, [])], |es|, r)
    ensures RestartWords(es + [e], r) == RestartWords(es + [Entry(e.key, [])], r)
  {
    RestartWordsSnoc(es, e, r);
    RestartWordsSnoc(es, Entry(e.key, []), r);
  }

  lemma AppendFive(b: Bytes, shared: nat, e: Entry)
    requires shared <= |e.key|
    ensures b + EncodeVar(shared) + EncodeVar(|e.key| - shared) + EncodeVar(|e.val|) + e.key[shared..] + e.val
         == b + EntryBytes(shared, e)
  {
  }
}

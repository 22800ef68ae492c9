/**
 Batches of writes and the clearing of a key prefix through them. Writes and iterators may fail at any
 point, as when the database is closed; an iterator sees the keys that were there when it was made.
 */
module Databases {
  import opened Ids
  import opened UInt64

  type Bytes = seq<byte>
  type Data = map<Bytes, Bytes>

  datatype BatchOp = Put(key: Bytes, value: Bytes) | Delete(key: Bytes) {
    function Size(): nat {
      match this
      case Put(k, v) => |k| + |v|
      case Delete(k) => |k|
    }

    function Effect(): Option<Bytes> {
      match this
      case Put(_, v) => Some(v)
      case Delete(_) => None
    }

    function Apply(data: Data): Data {
      match this
      case Put(k, v) => data[k := v]
      case Delete(k) => data - {k}
    }
  }

  // ---------- What a batch means ----------

  function Applied(data: Data, ops: seq<BatchOp>): Data {
    if ops == [] then data else ops[|ops| - 1].Apply(Applied(data, ops[..|ops| - 1]))
  }

  function TotalSize(ops: seq<BatchOp>): nat {
    if ops == [] then 0 else TotalSize(ops[..|ops| - 1]) + ops[|ops| - 1].Size()
  }

  /** The bytes that the operations carry. */
  ghost function Payload(ops: seq<BatchOp>): Bytes {
    if ops == [] then [] else
    Payload(ops[..|ops| - 1]) + (if ops[|ops| - 1].Put? then ops[|ops| - 1].key + ops[|ops| - 1].value else ops[|ops| - 1].key)
  }

  lemma {:induction false} TotalSizeIsPayload(ops: seq<BatchOp>)
    ensures TotalSize(ops) == |Payload(ops)|
  {
    if ops != [] {
      TotalSizeIsPayload(ops[..|ops| - 1]);
    }
  }

  function Lookup(data: Data, key: Bytes): Option<Bytes> {
    if key in data then Some(data[key]) else None
  }

  ghost predicate Untouched(ops: seq<BatchOp>, key: Bytes, from: nat) {
    forall j | from <= j < |ops| :: ops[j].key != key
  }

  lemma {:induction false} UntouchedKeyKeepsValue(data: Data, ops: seq<BatchOp>, key: Bytes)
    requires Untouched(ops, key, 0)
    ensures Lookup(Applied(data, ops), key) == Lookup(data, key)
  {
    if ops != [] {
      assert ops[|ops| - 1].key != key;
      UntouchedKeyKeepsValue(data, ops[..|ops| - 1], key);
    }
  }

  /** The value of a key after a batch is the effect of the last operation on it. */
  lemma {:induction false} LastOpWins(data: Data, ops: seq<BatchOp>, i: nat)
    requires i < |ops| && Untouched(ops, ops[i].key, i + 1)
    ensures Lookup(Applied(data, ops), ops[i].key) == ops[i].Effect()
  {
    if i < |ops| - 1 {
      assert ops[|ops| - 1].key != ops[i].key;
      LastOpWins(data, ops[..|ops| - 1], i);
    }
  }

  // ---------- Prefixes ----------

  ghost function Prefixed(data: Data, prefix: Bytes): set<Bytes> {
    set key | key in data && prefix <= key
  }

  ghost function Without(data: Data, prefix: Bytes): Data {
    map key | key in data && !(prefix <= key) :: data[key]
  }

  ghost predicate Submap(part: Data, whole: Data) {
    forall key | key in part :: key in whole && part[key] == whole[key]
  }

  /** Every operation of the batch deletes a key of `data` that has the prefix. */
  ghost predicate Deletes(ops: seq<BatchOp>, data: Data, prefix: Bytes) {
    forall i | 0 <= i < |ops| :: ops[i].Delete? && ops[i].key in Prefixed(data, prefix)
  }

  ghost function KeysOf(ops: seq<BatchOp>): set<Bytes> {
    set i | 0 <= i < |ops| :: ops[i].key
  }

  lemma {:induction false} DeletesRemoveKeys(data: Data, ops: seq<BatchOp>, prefix: Bytes)
    requires Deletes(ops, data, prefix)
    ensures Submap(Applied(data, ops), data)
    ensures forall key | key in data :: key in Applied(data, ops) <==> key !in KeysOf(ops)
  {
    if ops != [] {
      var n := |ops| - 1;
      DeletesRemoveKeys(data, ops[..n], prefix);
      forall key | key in data
        ensures key in Applied(data, ops) <==> key !in KeysOf(ops)
      {
        assert key in KeysOf(ops) <==> key in KeysOf(ops[..n]) || key == ops[n].key by {
          if key in KeysOf(ops) {
            var i :| 0 <= i < |ops| && ops[i].key == key;
            assert i < n ==> ops[..n][i].key == key;
          }
          if key in KeysOf(ops[..n]) {
            var i :| 0 <= i < n && ops[..n][i].key == key;
            assert ops[i].key == key;
          }
        }
      }
    }
  }

  /** Only keys with the prefix are gone from the database, or about to go. */
  ghost predicate Clearing(before: Data, data: Data, ops: seq<BatchOp>, prefix: Bytes) {
    && Submap(data, before)
    && Without(data, prefix) == Without(before, prefix)
    && Deletes(ops, data, prefix)
  }

  ghost predicate Covered(data: Data, prefix: Bytes, ops: seq<BatchOp>, remaining: seq<Bytes>) {
    forall key | key in Prefixed(data, prefix) :: key in KeysOf(ops) || key in remaining
  }

  lemma WriteKeepsClearing(before: Data, data: Data, ops: seq<BatchOp>, prefix: Bytes)
    requires Clearing(before, data, ops, prefix)
    ensures Clearing(before, Applied(data, ops), [], prefix)
    ensures ops != [] ==> Prefixed(Applied(data, ops), prefix) < Prefixed(data, prefix)
    ensures Covered(data, prefix, ops, []) ==> Applied(data, ops) == Without(before, prefix)
  {
    var after := Applied(data, ops);
    DeletesRemoveKeys(data, ops, prefix);
    assert forall key | key in KeysOf(ops) :: prefix <= key;
    assert Without(after, prefix) == Without(data, prefix);
    if ops != [] {
      assert ops[0].key in KeysOf(ops) && ops[0].key in Prefixed(data, prefix);
      assert ops[0].key !in Prefixed(after, prefix);
    }
    if Covered(data, prefix, ops, []) {
      assert after == Without(after, prefix);
    }
  }

  /** Where the clearing stands: unless the iterator failed, every key with the prefix is in the batch or still to come. */
  ghost predicate Underway(before: Data, data: Data, ops: seq<BatchOp>, remaining: seq<Bytes>, failed: bool, prefix: Bytes) {
    && Clearing(before, data, ops, prefix)
    && (forall key | key in remaining :: key in Prefixed(data, prefix))
    && (!failed ==> Covered(data, prefix, ops, remaining))
  }

  lemma DeleteKeepsUnderway(before: Data, data: Data, ops: seq<BatchOp>, key: Bytes, remaining: seq<Bytes>, failed: bool, prefix: Bytes)
    requires Underway(before, data, ops, [key] + remaining, failed, prefix)
    ensures Underway(before, data, ops + [BatchOp.Delete(key)], remaining, failed, prefix)
  {
    var more, all := ops + [BatchOp.Delete(key)], [key] + remaining;
    assert all[0] == key && key in all;
    assert forall k | k in remaining :: k in all;
    if !failed {
      DeleteKeepsCovered(data, prefix, ops, key, remaining);
    }
  }

  lemma DeleteKeepsCovered(data: Data, prefix: Bytes, ops: seq<BatchOp>, key: Bytes, remaining: seq<Bytes>)
    requires Covered(data, prefix, ops, [key] + remaining)
    ensures Covered(data, prefix, ops + [BatchOp.Delete(key)], remaining)
  {
    var more := ops + [BatchOp.Delete(key)];
    forall k | k in Prefixed(data, prefix)
      ensures k in KeysOf(more) || k in remaining
    {
      if k in KeysOf(ops) {
        var i :| 0 <= i < |ops| && ops[i].key == k;
        assert more[i].key == k;
      } else if k == key {
        assert more[|ops|].key == k;
      }
    }
  }

  // ---------- The database, its iterators and batches ----------

  class Iterator {
    const db: Database
    var remaining: seq<Bytes>
    var current: Bytes
    var failed: bool

    constructor (db: Database, keys: seq<Bytes>)
      ensures this.db == db && remaining == keys && !failed
    {
      this.db, remaining, current, failed := db, keys, [], false;
    }

    method Next() returns (more: bool)
      modifies this, db`failures
      ensures db.failures == if failed && !old(failed) then old(db.failures) + 1 else old(db.failures)
      ensures more ==> old(remaining) == [current] + remaining && !failed
      ensures !failed ==> !old(failed)
      ensures !more ==> remaining == old(remaining) && (failed || remaining == [])
    {
      if failed || remaining == [] {
        return false;
      }
      if * {
        failed := true;
        db.failures := db.failures + 1;
        return false;
      }
      current, remaining := remaining[0], remaining[1..];
      return true;
    }
  }

  class Database {
    var data: Data
    /** How many reads and writes have failed so far. */
    ghost var failures: nat

    method Put(key: Bytes, value: Bytes) returns (ok: bool)
      modifies this
      ensures failures == if ok then old(failures) else old(failures) + 1
      ensures data == if ok then old(data)[key := value] else old(data)
    {
      if * {
        failures := failures + 1;
        return false;
      }
      data := data[key := value];
      ok := true;
    }

    method Delete(key: Bytes) returns (ok: bool)
      modifies this
      ensures failures == if ok then old(failures) else old(failures) + 1
      ensures data == if ok then old(data) - {key} else old(data)
    {
      if * {
        failures := failures + 1;
        return false;
      }
      data := data - {key};
      ok := true;
    }

    method NewIteratorWithPrefix(prefix: Bytes) returns (it: Iterator)
      ensures fresh(it) && it.db == this && !it.failed
      ensures forall key :: key in it.remaining <==> key in Prefixed(data, prefix)
    {
      var todo := set key | key in data && prefix <= key;
      var keys: seq<Bytes> := [];
      while todo != {}
        invariant forall key :: key in Prefixed(data, prefix) <==> key in keys || key in todo
        decreases todo
      {
        ghost var some := Member(todo);
        var key :| key in todo;
        keys, todo := keys + [key], todo - {key};
      }
      it := new Iterator(this, keys);
    }
  }

  class BatchOps {
    const db: Database
    var ops: seq<BatchOp>
    var size: nat

    ghost predicate Valid()
      reads this
    {
      size == TotalSize(ops)
    }

    constructor (db: Database)
      ensures Valid() && this.db == db && ops == []
    {
      this.db, ops, size := db, [], 0;
    }

    method Put(key: Bytes, value: Bytes)
      requires Valid()
      modifies this
      ensures Valid() && ops == old(ops) + [BatchOp.Put(key, value)]
    {
      ops := ops + [BatchOp.Put(key, value)];
      size := size + |key| + |value|;
    }

    method Delete(key: Bytes)
      requires Valid()
      modifies this
      ensures Valid() && ops == old(ops) + [BatchOp.Delete(key)]
    {
      ops := ops + [BatchOp.Delete(key)];
      size := size + |key|;
    }

    method Reset()
      modifies this
      ensures Valid() && ops == []
    {
      ops, size := [], 0;
    }

    /** Replays up to the first write that fails. */
    method Replay(target: Database) returns (ok: bool, ghost done: nat)
      modifies target
      ensures done <= |ops| && target.data == Applied(old(target.data), ops[..done])
      ensures ok <==> done == |ops|
      ensures target.failures == if ok then old(target.failures) else old(target.failures) + 1
    {
      var i := 0;
      while i < |ops|
        invariant i <= |ops| && target.data == Applied(old(target.data), ops[..i])
        invariant target.failures == old(target.failures)
      {
        var op := ops[i];
        assert ops[..i + 1] == ops[..i] + [op];
        var written;
        match op {
          case Delete(key) => written := target.Delete(key);
          case Put(key, value) => written := target.Put(key, value);
        }
        if !written {
          return false, i;
        }
        i := i + 1;
      }
      assert ops[..i] == ops;
      return true, i;
    }

    /** Writes the batch, all of it or, when the database is closed, none. */
    method Write() returns (ok: bool)
      modifies db
      ensures db.data == if ok then Applied(old(db.data), ops) else old(db.data)
      ensures db.failures == if ok then old(db.failures) else old(db.failures) + 1
    {
      if * {
        db.failures := db.failures + 1;
        return false;
      }
      var data, i := db.data, 0;
      while i < |ops|
        invariant i <= |ops| && data == Applied(db.data, ops[..i])
      {
        assert ops[..i + 1] == ops[..i] + [ops[i]];
        data, i := ops[i].Apply(data), i + 1;
      }
      assert ops[..i] == ops;
      db.data := data;
      ok := true;
    }
  }

  /** Writes a batch of deletions: fewer keys with the prefix remain, and none if the batch has them all. */
  method WriteDeletes(batch: BatchOps, prefix: Bytes, ghost before: Data) returns (ok: bool)
    requires Clearing(before, batch.db.data, batch.ops, prefix)
    modifies batch.db
    ensures batch.db.failures == if ok then old(batch.db.failures) else old(batch.db.failures) + 1
    ensures Clearing(before, batch.db.data, if ok then [] else batch.ops, prefix)
    ensures ok && batch.ops != [] ==> Prefixed(batch.db.data, prefix) < Prefixed(old(batch.db.data), prefix)
    ensures ok && Covered(old(batch.db.data), prefix, batch.ops, []) ==> batch.db.data == Without(before, prefix)
  {
    WriteKeepsClearing(before, batch.db.data, batch.ops, prefix);
    ok := batch.Write();
  }

  /** Clears the keys with the prefix and no other, whatever the write size. It reports an error exactly when
      a write or an iterator failed on the way, and then only keys with the prefix may have gone. */
  method ClearPrefix(db: Database, prefix: Bytes, writeSize: int) returns (ok: bool)
    modifies db
    ensures ok <==> db.failures == old(db.failures)
    ensures ok ==> db.data == Without(old(db.data), prefix)
    ensures Submap(db.data, old(db.data)) && Without(db.data, prefix) == Without(old(db.data), prefix)
  {
    var batch := new BatchOps(db);
    var it := db.NewIteratorWithPrefix(prefix);
    while true
      invariant fresh(batch) && fresh(it) && batch.db == db && batch.Valid()
      invariant it.db == db && db.failures == if it.failed then old(db.failures) + 1 else old(db.failures)
      invariant Underway(old(db.data), db.data, batch.ops, it.remaining, it.failed, prefix)
      decreases Prefixed(db.data, prefix), |it.remaining|
    {
      var more := it.Next();
      if !more {
        break;
      }
      DeleteKeepsUnderway(old(db.data), db.data, batch.ops, it.current, it.remaining, it.failed, prefix);
      batch.Delete(it.current);
      if batch.size < writeSize {
        continue;
      }
      var written := WriteDeletes(batch, prefix, old(db.data));
      if !written {
        return false;
      }
      batch.Reset();
      if it.failed {
        return false;
      }
      it := db.NewIteratorWithPrefix(prefix);
    }
    var written := WriteDeletes(batch, prefix, old(db.data));
    if !written {
      return false;
    }
    return !it.failed;
  }
}

/** A table of 4096 chains: `hashtable.c`. */
module HashTables {
  import opened Options

  datatype Entry<K, V> = Entry(key: K, value: V)

  const BUCKETS: nat := 4096

  /** The first entry of a chain whose key compares equal. */
  function Find<K, V>(chain: seq<Entry<K, V>>, key: K, equal: (K, K) -> bool): Option<V>
  {
    if chain == [] then None
    else if equal(chain[0].key, key) then Some(chain[0].value)
    else Find(chain[1..], key, equal)
  }

  /** Inserting replaces the value of the first equal key, or puts a new entry in front. */
  function Inserted<K, V>(chain: seq<Entry<K, V>>, key: K, value: V, equal: (K, K) -> bool): seq<Entry<K, V>>
  {
    if Find(chain, key, equal).None? then [Entry(key, value)] + chain
    else Replaced(chain, key, value, equal)
  }

  function Replaced<K, V>(chain: seq<Entry<K, V>>, key: K, value: V, equal: (K, K) -> bool): seq<Entry<K, V>>
  {
    if chain == [] then []
    else if equal(chain[0].key, key) then [chain[0].(value := value)] + chain[1..]
    else [chain[0]] + Replaced(chain[1..], key, value, equal)
  }

  /** Removing takes out the first entry with an equal key. */
  function Removed<K, V>(chain: seq<Entry<K, V>>, key: K, equal: (K, K) -> bool): seq<Entry<K, V>>
  {
    if chain == [] then []
    else if equal(chain[0].key, key) then chain[1..]
    else [chain[0]] + Removed(chain[1..], key, equal)
  }

  /** The first e entries do not compare equal to the key. */
  predicate Passed<K, V>(chain: seq<Entry<K, V>>, key: K, equal: (K, K) -> bool, e: nat)
    requires e <= |chain|
  {
    forall i :: 0 <= i < e ==> !equal(chain[i].key, key)
  }

  /** What a walk that stops at entry e has found. */
  lemma {:induction false} FoundAt<K, V>(chain: seq<Entry<K, V>>, key: K, value: V, equal: (K, K) -> bool, e: nat)
    requires e < |chain| && Passed(chain, key, equal, e) && equal(chain[e].key, key)
    ensures Find(chain, key, equal) == Some(chain[e].value)
    ensures Inserted(chain, key, value, equal) == chain[e := chain[e].(value := value)]
    ensures Removed(chain, key, equal) == chain[..e] + chain[e + 1..]
  {
    hide Find, Replaced, Removed;
    FindAt(chain, key, equal, e);
    ReplacedAt(chain, key, value, equal, e);
    RemovedAt(chain, key, equal, e);
  }

  lemma {:induction false} FindAt<K, V>(chain: seq<Entry<K, V>>, key: K, equal: (K, K) -> bool, e: nat)
    requires e < |chain| && Passed(chain, key, equal, e) && equal(chain[e].key, key)
    ensures Find(chain, key, equal) == Some(chain[e].value)
  {
    if e > 0 {
      assert !equal(chain[0].key, key);
      FindAt(chain[1..], key, equal, e - 1);
    }
  }

  lemma {:induction false} ReplacedAt<K, V>(chain: seq<Entry<K, V>>, key: K, value: V, equal: (K, K) -> bool, e: nat)
    requires e < |chain| && Passed(chain, key, equal, e) && equal(chain[e].key, key)
    ensures Replaced(chain, key, value, equal) == chain[e := chain[e].(value := value)]
  {
    if e > 0 {
      assert !equal(chain[0].key, key);
      ReplacedAt(chain[1..], key, value, equal, e - 1);
      assert chain[e := chain[e].(value := value)] == [chain[0]] + chain[1..][e - 1 := chain[e].(value := value)];
    }
  }

  lemma {:induction false} RemovedAt<K, V>(chain: seq<Entry<K, V>>, key: K, equal: (K, K) -> bool, e: nat)
    requires e < |chain| && Passed(chain, key, equal, e) && equal(chain[e].key, key)
    ensures Removed(chain, key, equal) == chain[..e] + chain[e + 1..]
  {
    if e > 0 {
      assert !equal(chain[0].key, key);
      RemovedAt(chain[1..], key, equal, e - 1);
      assert chain[..e] + chain[e + 1..] == [chain[0]] + (chain[1..][..e - 1] + chain[1..][e..]);
    }
  }

  lemma {:induction false} NotFound<K, V>(chain: seq<Entry<K, V>>, key: K, equal: (K, K) -> bool)
    requires Passed(chain, key, equal, |chain|)
    ensures Find(chain, key, equal).None?
    ensures Removed(chain, key, equal) == chain
  {
    if chain != [] {
      NotFound(chain[1..], key, equal);
    }
  }

  class HashTable<!K, !V> {
    const hash: K -> nat
    const equal: (K, K) -> bool
    const entries: array<seq<Entry<K, V>>>

    constructor (hash: K -> nat, equal: (K, K) -> bool)
      ensures this.hash == hash && this.equal == equal
      ensures fresh(entries) && Valid()
      ensures forall i :: 0 <= i < BUCKETS ==> entries[i] == []
    {
      this.hash := hash;
      this.equal := equal;
      entries := new seq<Entry<K, V>>[BUCKETS](_ => []);
    }

    predicate Valid()
    {
      entries.Length == BUCKETS
    }

    function Bucket(key: K): (i: nat)
      ensures i < BUCKETS
    {
      hash(key) % BUCKETS
    }

    /** What the table holds for a key. */
    function Get(key: K): Option<V>
      requires Valid()
      reads entries
    {
      Find(entries[Bucket(key)], key, equal)
    }

    method Lookup(key: K) returns (value: Option<V>)
      requires Valid()
      ensures value == Get(key)
    {
      hide Find;
      var chain := entries[Bucket(key)];
      var e := 0;
      while e < |chain|
        invariant e <= |chain| && Passed(chain, key, equal, e)
      {
        if equal(chain[e].key, key) {
          FoundAt(chain, key, chain[e].value, equal, e);
          return Some(chain[e].value);
        }
        e := e + 1;
      }
      NotFound(chain, key, equal);
      return None;
    }

    method Insert(key: K, value: V)
      requires Valid()
      modifies entries
      ensures entries[..] == old(entries[..])[Bucket(key) := Inserted(old(entries[Bucket(key)]), key, value, equal)]
    {
      hide Find, Replaced;
      var idx0 := Bucket(key);
      var chain := entries[idx0];
      var e := 0;
      while e < |chain|
        invariant e <= |chain| && Passed(chain, key, equal, e) && entries[..] == old(entries[..])
      {
        if equal(chain[e].key, key) {
          FoundAt(chain, key, value, equal, e);
          entries[idx0] := chain[e := chain[e].(value := value)];
          return;
        }
        e := e + 1;
      }
      NotFound(chain, key, equal);
      entries[idx0] := [Entry(key, value)] + chain;
    }

    method Remove(key: K)
      requires Valid()
      modifies entries
      ensures entries[..] == old(entries[..])[Bucket(key) := Removed(old(entries[Bucket(key)]), key, equal)]
    {
      hide Removed, Find, Replaced;
      var idx0 := Bucket(key);
      var chain := entries[idx0];
      var e := 0;
      while e < |chain|
        invariant e <= |chain| && Passed(chain, key, equal, e) && entries[..] == old(entries[..])
      {
        if equal(chain[e].key, key) {
          FoundAt(chain, key, chain[e].value, equal, e);
          entries[idx0] := chain[..e] + chain[e + 1..];
          return;
        }
        e := e + 1;
      }
      NotFound(chain, key, equal);
    }
  }
}

// The planner's chained hash tables.  A chain links records through their
// keys; `records` is the memory those records live in, so a record reached
// through a pointer is updated without touching the chains.
module HashTable {
  import opened Common

  class HashTable<K(==), V> {
    const hash: K -> nat
    const chains: array<seq<K>>
    var records: map<K, V>

    /** Exactly the records in memory are linked, each in the chain its key hashes to. */
    ghost predicate Valid()
      reads this, chains
    {
      && chains.Length > 0
      && (forall b, j :: 0 <= b < chains.Length && 0 <= j < |chains[b]| ==>
            chains[b][j] in records && Slot(chains[b][j]) == b)
      && (forall k :: k in records ==> k in chains[Slot(k)])
    }

    function Slot(k: K): (b: nat)
      requires chains.Length > 0
      ensures b < chains.Length
    {
      hash(k) % chains.Length
    }

    constructor (size: nat, hash: K -> nat)
      requires size > 0
      ensures Valid() && fresh(chains) && records == map[]
    {
      this.hash := hash;
      chains := new seq<K>[size](_ => []);
      records := map[];
    }

    /** Walks the chain of k; a record that is not there is linked at the chain's head. */
    method FindOrAdd(k: K, v: V)
      requires Valid()
      modifies this, chains
      ensures Valid()
      ensures records == if k in old(records) then old(records) else old(records)[k := v]
    {
      var b := Slot(k);
      for i := 0 to |chains[b]|
        invariant k !in chains[b][..i]
      {
        if chains[b][i] == k {
          return;
        }
      }
      assert chains[b][..|chains[b]|] == chains[b];
      chains[b] := [k] + chains[b];
      records := records[k := v];
    }

    /** A record is written through its pointer. */
    method Write(k: K, v: V)
      requires Valid() && k in records
      modifies this`records
      ensures Valid() && records == old(records)[k := v]
    {
      records := records[k := v];
    }
  }
}

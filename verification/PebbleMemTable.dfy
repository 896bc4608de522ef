/** The write buffer: one MemTable per layer and the list of the active and the frozen ones.
    (projects/06-pebbledb/src/memtable/memtable.cpp, memtable_list.cpp) */
module PebbleMemTable {
  import opened PebbleHistory

  const PER_ENTRY_OVERHEAD := 32

  datatype LookupResult = Found | Deleted | NotFound

  function EntryCost(k: Key, e: Entry): nat {
    |k| + (if e.value.Some? then |e.value.value| else 0) + PER_ENTRY_OVERHEAD
  }

  /** The sum of the entry costs of a layer. */
  ghost function Cost(l: Layer): nat
    decreases |l|
  {
    if l == map[] then 0
    else
      var k :| k in l;
      EntryCost(k, l[k]) + Cost(l - {k})
  }

  /** The sum does not depend on the order in which entries are taken. */
  lemma {:induction false} CostWithout(l: Layer, k: Key)
    requires k in l
    ensures Cost(l) == EntryCost(k, l[k]) + Cost(l - {k})
    decreases |l|
  {
    var j :| j in l && Cost(l) == EntryCost(j, l[j]) + Cost(l - {j});
    if j != k {
      CostWithout(l - {j}, k);
      CostWithout(l - {k}, j);
      assert l - {j} - {k} == l - {k} - {j};
    }
  }

  lemma CostAfterInsert(l: Layer, r: Record)
    ensures Cost(Insert(l, r)) == Cost(l) - (if r.key in l then EntryCost(r.key, l[r.key]) else 0) + EntryCost(r.key, Entry(r.seqno, r.value))
  {
    CostWithout(Insert(l, r), r.key);
    assert Insert(l, r) - {r.key} == l - {r.key};
    if r.key in l {
      CostWithout(l, r.key);
    } else {
      assert l - {r.key} == l;
    }
  }

  class MemTable {
    var table: Layer
    var usage: int

    /** The running estimate is the sum it stands for, so it never goes below zero. */
    ghost predicate Valid()
      reads this
    {
      usage == Cost(table)
    }

    constructor ()
      ensures Valid() && table == map[]
    {
      table, usage := map[], 0;
    }

    method Put(key: Key, value: Bytes, seqno: nat)
      requires Valid()
      modifies this
      ensures Valid() && table == Insert(old(table), Record(seqno, key, Some(value)))
    {
      var newCost := |key| + |value| + PER_ENTRY_OVERHEAD;
      CostAfterInsert(table, Record(seqno, key, Some(value)));
      if key in table {
        usage := usage - EntryCost(key, table[key]);
      }
      usage := usage + newCost;
      table := table[key := Entry(seqno, Some(value))];
    }

    method Delete(key: Key, seqno: nat)
      requires Valid()
      modifies this
      ensures Valid() && table == Insert(old(table), Record(seqno, key, None))
    {
      var newCost := |key| + PER_ENTRY_OVERHEAD;
      CostAfterInsert(table, Record(seqno, key, None));
      if key in table {
        usage := usage - EntryCost(key, table[key]);
      }
      usage := usage + newCost;
      table := table[key := Entry(seqno, None)];
    }

    method Get(key: Key) returns (result: LookupResult, value: Bytes, seqno: nat)
      ensures result == NotFound <==> key !in table
      ensures key in table ==> seqno == table[key].seqno
      ensures key in table ==> (result == Deleted <==> table[key].value == None)
      ensures result == Found ==> table[key].value == Some(value)
    {
      value, seqno := "", 0;
      if key !in table {
        return NotFound, value, seqno;
      }
      seqno := table[key].seqno;
      if table[key].value == None {
        return Deleted, value, seqno;
      }
      value := table[key].value.value;
      result := Found;
    }
  }

  class MemTableList {
    var active: MemTable
    var immutables: seq<MemTable>  // newest first
    ghost var frozen: seq<Layer>   // what the immutable MemTables hold

    ghost function Repr(): set<object>
      reads this
    {
      {this, active} + (set m: MemTable | m in immutables)
    }

    ghost predicate Valid()
      reads Repr()
    {
      && active.Valid()
      && active !in immutables
      && (forall i, j :: 0 <= i < j < |immutables| ==> immutables[i] != immutables[j])
      && |frozen| == |immutables|
      && (forall i :: 0 <= i < |immutables| ==> immutables[i].Valid() && immutables[i].table == frozen[i])
    }

    constructor ()
      ensures Valid() && fresh(Repr()) && active.table == map[] && immutables == [] && frozen == []
    {
      active := new MemTable();
      immutables, frozen := [], [];
    }

    method Put(key: Key, value: Bytes, seqno: nat)
      requires Valid()
      modifies active
      ensures Valid() && active.table == Insert(old(active.table), Record(seqno, key, Some(value)))
    {
      active.Put(key, value, seqno);
    }

    method Delete(key: Key, seqno: nat)
      requires Valid()
      modifies active
      ensures Valid() && active.table == Insert(old(active.table), Record(seqno, key, None))
    {
      active.Delete(key, seqno);
    }

    /** Merges across the layers, newest first: the first MemTable that mentions the key answers. */
    method Get(key: Key) returns (result: LookupResult, value: Bytes, seqno: nat)
      requires Valid()
      ensures result == NotFound <==> Lookup([active.table] + frozen, key) == None
      ensures result == Found ==> Lookup([active.table] + frozen, key) == Some(Entry(seqno, Some(value)))
      ensures result == Deleted ==> Lookup([active.table] + frozen, key) == Some(Entry(seqno, None))
    {
      result, value, seqno := active.Get(key);
      if result != NotFound {
        return;
      }
      assert ([active.table] + frozen)[1..] == frozen;
      for i := 0 to |immutables|
        invariant result == NotFound
        invariant Lookup(frozen, key) == Lookup(frozen[i..], key)
      {
        result, value, seqno := immutables[i].Get(key);
        if result != NotFound {
          return;
        }
        assert frozen[i..][1..] == frozen[i + 1..];
      }
    }

    method Freeze()
      requires Valid()
      modifies this
      ensures Valid() && fresh(active) && active.table == map[]
      ensures immutables == [old(active)] + old(immutables)
      ensures frozen == [old(active.table)] + old(frozen)
    {
      immutables := [active] + immutables;
      frozen := [active.table] + frozen;
      active := new MemTable();
    }

    /** Removes the MemTable if it is in the list; otherwise nothing happens. */
    method RemoveImmutable(table: MemTable)
      requires Valid()
      modifies this`immutables, this`frozen
      ensures Valid()
      ensures table !in old(immutables) ==> immutables == old(immutables)
      ensures forall i :: 0 <= i < |old(immutables)| && old(immutables)[i] == table ==>
                immutables == old(immutables)[..i] + old(immutables)[i + 1..] && frozen == old(frozen)[..i] + old(frozen)[i + 1..]
    {
      for i := 0 to |immutables|
        invariant immutables == old(immutables) && frozen == old(frozen)
        invariant table !in immutables[..i]
      {
        if immutables[i] == table {
          immutables := immutables[..i] + immutables[i + 1..];
          frozen := frozen[..i] + frozen[i + 1..];
          return;
        }
      }
    }
  }
}

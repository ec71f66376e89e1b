/** beo::Data_Manager of the src/Data revision: the registry of Data sets by name. The map hands
    out references through data_map(), so the entries are objects; every key is the name of the
    Data stored under it. */
module DataManagers {
  import opened Common
  import opened DataChunks
  import opened DataSets

  class DataManager {
    var entries: map<string, Data>
    var holds: nat

    /** Every Data is stored under its own name (so distinct keys hold distinct objects) and
        keeps no more chunks than its capacity. */
    ghost predicate Valid()
      reads this, entries.Values
    {
      forall k :: k in entries ==> entries[k].name == k && entries[k].Valid()
    }

    constructor ()
      ensures entries == map[] && holds == 0 && Valid()
    {
      entries := map[];
      holds := 0;
    }

    /** add(const Data&) and add(Data&&): both store a copy of the argument (the pair is built from
        an lvalue) under its name when that name is absent and return 0; otherwise the map is
        unchanged and the result is 1. */
    method Add(d: Data) returns (status: int)
      requires Valid()
      modifies this
      ensures Valid() && holds == old(holds)
      ensures status == if d.name in old(entries) then FAIL else SUCCESS
      ensures status == FAIL ==> entries == old(entries)
      ensures status == SUCCESS ==>
        entries.Keys == old(entries).Keys + {d.name} && fresh(entries[d.name]) &&
        entries[d.name].name == d.name && entries[d.name].lengths == d.lengths &&
        entries[d.name].chunks == CopiedChunks(d.chunks) && entries[d.name].capacity == |d.chunks| &&
        entries[d.name].holds == 0 &&
        forall k :: k in old(entries) ==> entries[k] == old(entries)[k]
    {
      if d.name in entries {
        return FAIL;
      }
      var copy := new Data.CopyOf(d);
      entries := InsertIfAbsent(entries, d.name, copy);
      status := SUCCESS;
    }

    /** remove(key): 0 and the entry erased when the key is present, 1 and no change when not. */
    method Remove(key: string) returns (status: int)
      requires Valid()
      modifies this
      ensures Valid() && holds == old(holds)
      ensures entries == Erase(old(entries), key)
      ensures status == if key in old(entries) then SUCCESS else FAIL
    {
      status := if key in entries then SUCCESS else FAIL;
      entries := Erase(entries, key);
    }

    /** lock(): the manager's own mutex first, then each Data's lock(). */
    method Lock()
      requires Valid()
      modifies this, entries.Values
      ensures entries == old(entries) && holds == old(holds) + 1 && Valid()
      ensures forall k :: k in entries ==>
        entries[k].holds == old(entries[k].holds) + 1 &&
        entries[k].chunks == LockedChunks(old(entries[k].chunks)) &&
        entries[k].lengths == old(entries[k].lengths) && entries[k].capacity == old(entries[k].capacity)
    {
      holds := holds + 1;
      LockSets();
    }

    /** The loop of lock() over the stored Data sets; the map and the manager's mutex stay as
        they are. */
    method LockSets()
      requires Valid()
      modifies entries.Values
      ensures Valid()
      ensures forall k :: k in entries ==>
        entries[k].holds == old(entries[k].holds) + 1 &&
        entries[k].chunks == LockedChunks(old(entries[k].chunks)) &&
        entries[k].lengths == old(entries[k].lengths) && entries[k].capacity == old(entries[k].capacity)
    {
      var todo := entries.Keys;
      while todo != {}
        invariant todo <= entries.Keys
        invariant forall k :: k in entries ==>
          entries[k].name == k && entries[k].lengths == old(entries[k].lengths) &&
          entries[k].capacity == old(entries[k].capacity) &&
          entries[k].holds == old(entries[k].holds) + (if k in todo then 0 else 1) &&
          entries[k].chunks == if k in todo then old(entries[k].chunks) else LockedChunks(old(entries[k].chunks))
        decreases |todo|
      {
        var k :| k in todo;
        entries[k].Lock();
        todo := todo - {k};
      }
    }

    /** unlock(): each Data's unlock() first, then the manager's own mutex. Every count released
        must be held. */
    method Unlock()
      requires Valid() && holds > 0
      requires forall k :: k in entries ==> entries[k].holds > 0 && AllHeld(entries[k].chunks)
      modifies this, entries.Values
      ensures entries == old(entries) && holds == old(holds) - 1 && Valid()
      ensures forall k :: k in entries ==>
        entries[k].holds == old(entries[k].holds) - 1 &&
        entries[k].chunks == UnlockedChunks(old(entries[k].chunks)) &&
        entries[k].lengths == old(entries[k].lengths) && entries[k].capacity == old(entries[k].capacity)
    {
      UnlockSets();
      holds := holds - 1;
    }

    /** The loop of unlock() over the stored Data sets; the map and the manager's mutex stay as
        they are. */
    method UnlockSets()
      requires Valid()
      requires forall k :: k in entries ==> entries[k].holds > 0 && AllHeld(entries[k].chunks)
      modifies entries.Values
      ensures Valid()
      ensures forall k :: k in entries ==>
        entries[k].holds == old(entries[k].holds) - 1 &&
        entries[k].chunks == UnlockedChunks(old(entries[k].chunks)) &&
        entries[k].lengths == old(entries[k].lengths) && entries[k].capacity == old(entries[k].capacity)
    {
      var todo := entries.Keys;
      while todo != {}
        invariant todo <= entries.Keys
        invariant forall k :: k in entries ==>
          entries[k].name == k && entries[k].lengths == old(entries[k].lengths) &&
          entries[k].capacity == old(entries[k].capacity) &&
          entries[k].holds == old(entries[k].holds) - (if k in todo then 0 else 1) &&
          entries[k].chunks == if k in todo then old(entries[k].chunks) else UnlockedChunks(old(entries[k].chunks))
        decreases |todo|
      {
        var k :| k in todo;
        entries[k].Unlock();
        todo := todo - {k};
      }
    }
  }
}

/** beo::Data_Tag_Manager: the registry of Data_Tags by name. get hands out references, so the
    entries are objects; every key is the name of the Data_Tag stored under it. */
module DataTagManagers {
  import opened Common
  import opened DataTags

  class DataTagManager {
    var entries: map<string, DataTag>
    /** Hold count of the manager's own recursive mutex. */
    var holds: nat

    /** Every entry is stored under its own name; hence distinct keys hold distinct objects. */
    ghost predicate Valid()
      reads this, entries.Values
    {
      forall k :: k in entries ==> entries[k].name == k
    }

    constructor ()
      ensures entries == map[] && holds == 0 && Valid()
    {
      entries := map[];
      holds := 0;
    }

    /** add(const Data_Tag&) and add(Data_Tag&&): both store a copy of the argument (the pair is
        built from an lvalue) under its name when that name is absent and return 0; otherwise
        the map is unchanged and the result is 1. */
    method Add(t: DataTag) returns (status: int)
      requires Valid()
      modifies this
      ensures Valid() && holds == old(holds)
      ensures status == if t.name in old(entries) then FAIL else SUCCESS
      ensures status == FAIL ==> entries == old(entries)
      ensures status == SUCCESS ==>
        entries.Keys == old(entries).Keys + {t.name} && fresh(entries[t.name]) &&
        entries[t.name].name == t.name && entries[t.name].lengths == t.lengths &&
        entries[t.name].tags == CopiedTags(t.tags) && entries[t.name].holds == 0 &&
        forall k :: k in old(entries) ==> entries[k] == old(entries)[k]
    {
      if t.name in entries {
        return FAIL;
      }
      var copy := new DataTag.CopyOf(t);
      entries := InsertIfAbsent(entries, t.name, copy);
      status := SUCCESS;
    }

    /** remove(key): 0 and the entry erased when the key is present, 1 and no change when not. */
    method Remove(key: string) returns (status: int)
      requires Valid()
      modifies this
      ensures Valid() && holds == old(holds)
      ensures entries == Erase(old(entries), key)
      ensures status == if key in old(entries) then SUCCESS else FAIL
    {
      status := if key in entries then SUCCESS else FAIL;
      entries := Erase(entries, key);
    }

    /** get(key): the stored Data_Tag, or the process ends (exit(1)) on a miss. */
    function Get(key: string): (r: Lookup<DataTag>)
      requires Valid()
      reads this, entries.Values
      ensures r.Found? <==> key in entries
      ensures r.Found? ==> r.value == entries[key] && r.value.name == key
    {
      if key in entries then Found(entries[key]) else Terminated
    }

    /** lock(): the manager's own mutex first, then each Data_Tag's lock(), which in turn locks
        its chunk tags. */
    method Lock()
      requires Valid()
      modifies this, entries.Values
      ensures entries == old(entries) && holds == old(holds) + 1 && Valid()
      ensures forall k :: k in entries ==>
        entries[k].holds == old(entries[k].holds) + 1 &&
        entries[k].tags == LockedTags(old(entries[k].tags)) &&
        entries[k].name == old(entries[k].name) && entries[k].lengths == old(entries[k].lengths)
    {
      holds := holds + 1;
      LockEntries();
    }

    /** The loop of lock() over the stored Data_Tags; the map itself and the manager's mutex
        stay as they are. */
    method LockEntries()
      requires Valid()
      modifies entries.Values
      ensures Valid()
      ensures forall k :: k in entries ==>
        entries[k].holds == old(entries[k].holds) + 1 &&
        entries[k].tags == LockedTags(old(entries[k].tags)) &&
        entries[k].name == old(entries[k].name) && entries[k].lengths == old(entries[k].lengths)
    {
      var todo := entries.Keys;
      while todo != {}
        invariant todo <= entries.Keys
        invariant forall k :: k in entries ==>
          entries[k].name == k && entries[k].lengths == old(entries[k].lengths)
        invariant forall k :: k in entries && k !in todo ==>
          entries[k].holds == old(entries[k].holds) + 1 &&
          entries[k].tags == LockedTags(old(entries[k].tags))
        invariant forall k :: k in todo ==>
          entries[k].holds == old(entries[k].holds) && entries[k].tags == old(entries[k].tags)
        decreases |todo|
      {
        var k :| k in todo;
        entries[k].Lock();
        todo := todo - {k};
      }
    }

    /** unlock(): each Data_Tag's unlock() first, then the manager's own mutex. Every count
        released must be held. */
    method Unlock()
      requires Valid() && holds > 0
      requires forall k :: k in entries ==> entries[k].holds > 0 && AllHeld(entries[k].tags)
      modifies this, entries.Values
      ensures entries == old(entries) && holds == old(holds) - 1 && Valid()
      ensures forall k :: k in entries ==>
        entries[k].holds == old(entries[k].holds) - 1 &&
        entries[k].tags == UnlockedTags(old(entries[k].tags)) &&
        entries[k].name == old(entries[k].name) && entries[k].lengths == old(entries[k].lengths)
    {
      UnlockEntries();
      holds := holds - 1;
    }

    /** The loop of unlock() over the stored Data_Tags; the map itself and the manager's mutex
        stay as they are. */
    method UnlockEntries()
      requires Valid()
      requires forall k :: k in entries ==> entries[k].holds > 0 && AllHeld(entries[k].tags)
      modifies entries.Values
      ensures Valid()
      ensures forall k :: k in entries ==>
        entries[k].holds == old(entries[k].holds) - 1 &&
        entries[k].tags == UnlockedTags(old(entries[k].tags)) &&
        entries[k].name == old(entries[k].name) && entries[k].lengths == old(entries[k].lengths)
    {
      var todo := entries.Keys;
      while todo != {}
        invariant todo <= entries.Keys
        invariant forall k :: k in entries ==>
          entries[k].name == k && entries[k].lengths == old(entries[k].lengths)
        invariant forall k :: k in entries && k !in todo ==>
          entries[k].holds == old(entries[k].holds) - 1 &&
          entries[k].tags == UnlockedTags(old(entries[k].tags))
        invariant forall k :: k in todo ==>
          entries[k].holds == old(entries[k].holds) && entries[k].tags == old(entries[k].tags)
        decreases |todo|
      {
        var k :| k in todo;
        entries[k].Unlock();
        todo := todo - {k};
      }
    }
  }
}

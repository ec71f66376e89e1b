/** beo::Files: the registry of shared files by name. A beo::Shared_File is reduced to its name,
    its is_open_ flag, whether its handle file_ is held (non-null) and the hold count of its
    mutex; the file operations behind fopen/fclose are replaced by their outcomes. */
module FileRegistry {
  import opened Common

  class SharedFile {
    var name: string
    var isOpen: bool
    /** Whether the handle file_ refers to an open stream. */
    var handle: bool
    var holds: nat

    /** Shared_File(name): only the name is set; the file is not open. */
    constructor Named(n: string)
      ensures name == n && !isOpen && !handle && holds == 0
    {
      name := n;
      isOpen := false;
      handle := false;
      holds := 0;
    }

    /** The copy constructor copies the handle and the name; is_open_ takes its default, false. */
    constructor CopyOf(other: SharedFile)
      ensures name == other.name && handle == other.handle && !isOpen && holds == 0
    {
      name := other.name;
      handle := other.handle;
      isOpen := false;
      holds := 0;
    }

    /** open(comm, mode) in the build without MPI: an already open file is refused with
        BEO_FAIL; otherwise fopen's outcome `succeeded` sets both the handle and is_open_. */
    method Open(succeeded: bool) returns (status: int)
      modifies this
      ensures old(isOpen) ==> status == FAIL && isOpen && handle == old(handle)
      ensures !old(isOpen) ==>
        isOpen == succeeded && handle == succeeded && status == (if succeeded then SUCCESS else FAIL)
      ensures name == old(name) && holds == old(holds)
    {
      if isOpen {
        return FAIL;
      }
      handle := succeeded;
      isOpen := succeeded;
      status := if succeeded then SUCCESS else FAIL;
    }

    /** close() in the build without MPI: a file not marked open is left alone (BEO_SUCCESS).
        Otherwise the handle is released; is_open_ is never cleared, and the result tests the
        handle after it was reset to null, so it is BEO_FAIL. */
    method Close() returns (status: int)
      modifies this
      ensures !old(isOpen) ==> handle == old(handle) && status == SUCCESS
      ensures old(isOpen) ==> !handle && status == FAIL
      ensures isOpen == old(isOpen) && name == old(name) && holds == old(holds)
    {
      if !isOpen {
        return SUCCESS;
      }
      if handle {
        handle := false;
      }
      status := if handle then SUCCESS else FAIL;
    }

    method Lock()
      modifies this
      ensures holds == old(holds) + 1
      ensures name == old(name) && isOpen == old(isOpen) && handle == old(handle)
    {
      holds := holds + 1;
    }

    method Unlock()
      requires holds > 0
      modifies this
      ensures holds == old(holds) - 1
      ensures name == old(name) && isOpen == old(isOpen) && handle == old(handle)
    {
      holds := holds - 1;
    }
  }

  class Files {
    var entries: map<string, SharedFile>
    var holds: nat

    /** Every file is stored under its own name; hence distinct keys hold distinct objects. */
    ghost predicate Valid()
      reads this, entries.Values
    {
      forall k :: k in entries ==> entries[k].name == k
    }

    constructor ()
      ensures entries == map[] && holds == 0 && Valid()
    {
      entries := map[];
      holds := 0;
    }

    /** add(Shared_File&&): the pair is built from the argument as an lvalue, so a copy is stored
        under its name, with is_open_ false, when the name is absent (result 0); otherwise the
        map is unchanged (result 1). */
    method Add(f: SharedFile) returns (status: int)
      requires Valid()
      modifies this
      ensures Valid() && holds == old(holds)
      ensures status == if f.name in old(entries) then FAIL else SUCCESS
      ensures status == FAIL ==> entries == old(entries)
      ensures status == SUCCESS ==>
        entries.Keys == old(entries).Keys + {f.name} && fresh(entries[f.name]) &&
        entries[f.name].name == f.name && entries[f.name].handle == f.handle &&
        !entries[f.name].isOpen && entries[f.name].holds == 0 &&
        forall k :: k in old(entries) ==> entries[k] == old(entries)[k]
    {
      if f.name in entries {
        return FAIL;
      }
      var copy := new SharedFile.CopyOf(f);
      entries := InsertIfAbsent(entries, f.name, copy);
      status := SUCCESS;
    }

    /** get(key): the stored file, or the process ends (exit(1)) on a miss. */
    function Get(key: string): (r: Lookup<SharedFile>)
      requires Valid()
      reads this, entries.Values
      ensures r.Found? <==> key in entries
      ensures r.Found? ==> r.value == entries[key] && r.value.name == key
    {
      if key in entries then Found(entries[key]) else Terminated
    }

    /** remove(key): get(key) ends the process on a miss, so the status 1 is never returned;
        otherwise the file is closed, erased, and the result is 0. */
    method Remove(key: string) returns (r: Lookup<int>)
      requires Valid()
      modifies this, if key in entries then {entries[key]} else {}
      ensures Valid() && holds == old(holds)
      ensures key !in old(entries) ==> r == Terminated && entries == old(entries)
      ensures key in old(entries) ==>
        r == Found(SUCCESS) && entries == Erase(old(entries), key) &&
        old(entries)[key].handle == (old(entries[key].handle) && !old(entries[key].isOpen)) &&
        old(entries)[key].isOpen == old(entries[key].isOpen) &&
        old(entries)[key].holds == old(entries[key].holds) && old(entries)[key].name == key
      ensures forall k :: k in entries ==>
        entries[k].handle == old(entries[k].handle) && entries[k].isOpen == old(entries[k].isOpen) &&
        entries[k].holds == old(entries[k].holds) && entries[k].name == k
    {
      if key !in entries {
        return Terminated;
      }
      var file := entries[key];
      var closed := file.Close();
      entries := Erase(entries, key);
      r := Found(SUCCESS);
    }

    /** lock(): the registry's own mutex first, then every file's. */
    method Lock()
      requires Valid()
      modifies this, entries.Values
      ensures entries == old(entries) && holds == old(holds) + 1 && Valid()
      ensures forall k :: k in entries ==>
        entries[k].holds == old(entries[k].holds) + 1 &&
        entries[k].isOpen == old(entries[k].isOpen) && entries[k].handle == old(entries[k].handle)
    {
      holds := holds + 1;
      LockFiles();
    }

    /** The loop of lock() over the stored files; the map and the registry's mutex stay as they
        are. */
    method LockFiles()
      requires Valid()
      modifies entries.Values
      ensures Valid()
      ensures forall k :: k in entries ==>
        entries[k].holds == old(entries[k].holds) + 1 &&
        entries[k].isOpen == old(entries[k].isOpen) && entries[k].handle == old(entries[k].handle)
    {
      var todo := entries.Keys;
      while todo != {}
        invariant todo <= entries.Keys
        invariant forall k :: k in entries ==>
          entries[k].name == k && entries[k].isOpen == old(entries[k].isOpen) &&
          entries[k].handle == old(entries[k].handle) &&
          entries[k].holds == old(entries[k].holds) + (if k in todo then 0 else 1)
        decreases |todo|
      {
        var k :| k in todo;
        entries[k].Lock();
        todo := todo - {k};
      }
    }

    /** unlock(): every file's mutex first, then the registry's own. */
    method Unlock()
      requires Valid() && holds > 0
      requires forall k :: k in entries ==> entries[k].holds > 0
      modifies this, entries.Values
      ensures entries == old(entries) && holds == old(holds) - 1 && Valid()
      ensures forall k :: k in entries ==>
        entries[k].holds == old(entries[k].holds) - 1 &&
        entries[k].isOpen == old(entries[k].isOpen) && entries[k].handle == old(entries[k].handle)
    {
      UnlockFiles();
      holds := holds - 1;
    }

    /** The loop of unlock() over the stored files; the map and the registry's mutex stay as they
        are. */
    method UnlockFiles()
      requires Valid()
      requires forall k :: k in entries ==> entries[k].holds > 0
      modifies entries.Values
      ensures Valid()
      ensures forall k :: k in entries ==>
        entries[k].holds == old(entries[k].holds) - 1 &&
        entries[k].isOpen == old(entries[k].isOpen) && entries[k].handle == old(entries[k].handle)
    {
      var todo := entries.Keys;
      while todo != {}
        invariant todo <= entries.Keys
        invariant forall k :: k in entries ==>
          entries[k].name == k && entries[k].isOpen == old(entries[k].isOpen) &&
          entries[k].handle == old(entries[k].handle) &&
          entries[k].holds == old(entries[k].holds) - (if k in todo then 0 else 1)
        decreases |todo|
      {
        var k :| k in todo;
        entries[k].Unlock();
        todo := todo - {k};
      }
    }

    /** finalize() as written: the range-for binds each entry by value, so close() runs on a
        copy whose is_open_ is false and does nothing. Every stored file, an open one included,
        keeps its handle. */
    method Finalize()
      requires Valid()
      modifies this, entries.Values
      ensures entries == old(entries) && holds == old(holds) && Valid()
      ensures forall k :: k in entries ==>
        entries[k].holds == old(entries[k].holds) &&
        entries[k].isOpen == old(entries[k].isOpen) && entries[k].handle == old(entries[k].handle)
      ensures forall k :: k in entries && old(entries[k].isOpen && entries[k].handle) ==>
        entries[k].handle
    {
      Lock();
      CloseCopies();
      Unlock();
    }

    /** The loop of finalize() as written: each iteration copy-constructs the entry and closes
        the copy, so no stored file changes. */
    method CloseCopies()
      requires Valid()
      ensures Valid()
    {
      var todo := entries.Keys;
      while todo != {}
        invariant todo <= entries.Keys
        decreases |todo|
      {
        var k :| k in todo;
        var val := new SharedFile.CopyOf(entries[k]);
        var status := val.Close();
        todo := todo - {k};
      }
    }

    /** finalize() with the loop binding each entry by reference: every file marked open has its
        handle released; the others are left as they were. */
    method FinalizeByReference()
      requires Valid()
      modifies this, entries.Values
      ensures entries == old(entries) && holds == old(holds) && Valid()
      ensures forall k :: k in entries ==>
        entries[k].holds == old(entries[k].holds) && entries[k].isOpen == old(entries[k].isOpen) &&
        entries[k].handle == (old(entries[k].handle) && !old(entries[k].isOpen))
      ensures forall k :: k in entries && old(entries[k].isOpen) ==> !entries[k].handle
    {
      Lock();
      CloseAll();
      Unlock();
    }

    /** The by-reference loop: close() on every stored file. */
    method CloseAll()
      requires Valid()
      modifies entries.Values
      ensures Valid()
      ensures forall k :: k in entries ==>
        entries[k].holds == old(entries[k].holds) && entries[k].isOpen == old(entries[k].isOpen) &&
        entries[k].handle == (old(entries[k].handle) && !old(entries[k].isOpen))
    {
      var todo := entries.Keys;
      while todo != {}
        invariant todo <= entries.Keys
        invariant forall k :: k in entries ==>
          entries[k].name == k &&
          entries[k].holds == old(entries[k].holds) && entries[k].isOpen == old(entries[k].isOpen) &&
          entries[k].handle ==
            if k in todo then old(entries[k].handle) else old(entries[k].handle) && !old(entries[k].isOpen)
        decreases |todo|
      {
        var k :| k in todo;
        var status := entries[k].Close();
        todo := todo - {k};
      }
    }
  }
}

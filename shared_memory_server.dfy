/** beocomp::shared_memory_server (smem_nodes): the map from a name to the shared_data registered
    under it. The list of shared_memory_nodes is not part of the model. */
module SharedMemoryServers {
  import opened Common
  import opened SharedDataInfo

  class SharedMemoryServer {
    var registry: map<string, SharedData>

    constructor ()
      ensures registry == map[]
    {
      registry := map[];
    }

    /** add_shared_data(str, data): inserts data under str when str is absent and reports
        whether it did; an existing entry is kept and no other key is affected. */
    method AddSharedData(str: string, data: SharedData) returns (inserted: bool)
      modifies this
      ensures registry == InsertIfAbsent(old(registry), str, data)
      ensures inserted <==> str !in old(registry)
      ensures registry[str] == if inserted then data else old(registry)[str]
      ensures forall k :: k in registry && k != str ==> k in old(registry) && registry[k] == old(registry)[k]
    {
      inserted := str !in registry;
      registry := InsertIfAbsent(registry, str, data);
    }
  }

  /** Registering the same name twice keeps the first entry, whatever the second one is. */
  lemma SecondAddKeepsFirst(m: map<string, SharedData>, str: string, d1: SharedData, d2: SharedData)
    requires str !in m
    ensures InsertIfAbsent(InsertIfAbsent(m, str, d1), str, d2) == InsertIfAbsent(m, str, d1)
    ensures InsertIfAbsent(InsertIfAbsent(m, str, d1), str, d2)[str] == d1
  {
  }
}

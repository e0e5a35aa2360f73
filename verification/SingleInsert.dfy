/** The live insert handle: one packet per command. */
module SingleInsert {
  import opened Names
  import opened Storage
  import opened FastRepo

  datatype Process = Process(status: nat, insertNum: nat)

  const ACCEPTED: nat := 100
  const IN_PROGRESS: nat := 300

  class WriteHandle {
    var processes: map<nat, Process>
    var expressed: seq<Name>

    /** A process in the table has inserted nothing yet. */
    ghost predicate Valid()
      reads this
    {
      AllPending(processes)
    }

    static ghost predicate AllPending(processes: map<nat, Process>) {
      forall pid :: pid in processes ==> processes[pid] == Process(IN_PROGRESS, 0)
    }

    constructor ()
      ensures Valid() && processes == map[] && expressed == []
    {
      processes, expressed := map[], [];
    }

    /** The command is accepted and the packet requested. */
    method ProcessSingleInsertCommand(pid: nat, fetchName: Name) returns (reply: Process)
      requires Valid()
      modifies this
      ensures Valid() && reply == Process(100, 0)
      ensures processes == old(processes)[pid := Process(300, 0)]
      ensures expressed == old(expressed) + [fetchName]
    {
      processes := processes[pid := Process(ACCEPTED, 0)];
      reply := processes[pid];
      processes := processes[pid := processes[pid].(status := IN_PROGRESS)];
      expressed := expressed + [fetchName];
    }

    method OnTimeout(pid: nat)
      requires Valid()
      modifies this`processes
      ensures Valid() && processes == old(processes) - {pid}
    {
      processes := processes - {pid};
    }

    /** The packet is stored and its stored name announced, once; the process is done. A failed write
        announces the empty name. */
    method OnDataValidated(pid: nat, data: Packet, ok: bool, storage: StorageEngine, repo: FastRepo)
      requires Valid() && storage.Consistent() && WellFormed(data.name)
      modifies this`processes, storage`keys, storage`values, repo`dataPrefixes, repo`listened
      ensures Valid() && storage.Consistent() && processes == old(processes) - {pid}
      ensures pid !in old(processes) ==>
                storage.values == old(storage.values) && repo.dataPrefixes == old(repo.dataPrefixes)
      ensures pid in old(processes) ==>
                StorageEngine.Stores(old(storage.values), storage.values, storage.renamePrefix, data, ok)
      ensures pid in old(processes) ==>
                var name := if ok then Parse(storage.renamePrefix) + data.name else [];
                && storage.Stored() == old(storage.Stored()) + (if ok then {name} else {})
                && repo.dataPrefixes == Announced(repo.slots, old(repo.dataPrefixes), name)
      ensures repo.listened == old(repo.listened) + repo.dataPrefixes[|old(repo.dataPrefixes)|..]
    {
      if pid !in processes {
        return;
      }
      if processes[pid].insertNum == 0 {
        var n := storage.Put(data, ok);
        processes := processes[pid := processes[pid].(insertNum := 1)];
        repo.DataInserted(n);
      }
      processes := processes - {pid};
    }
  }
}

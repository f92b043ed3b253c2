// The in-memory checkpoint store (orchestrate/checkpoint.go).
module Checkpoints {
  import opened Types

  class InMemoryCheckpointStore {
    var data: map<string, map<NodeId, Response>>

    // The saved results of one DAG execution; empty if there are none.
    ghost function Entries(dagId: string): map<NodeId, Response>
      reads this
    {
      if dagId in data then data[dagId] else map[]
    }

    constructor ()
      ensures forall d :: Entries(d) == map[]
    {
      data := map[];
    }

    method Save(dagId: string, nodeId: NodeId, resp: Response)
      modifies this
      ensures Entries(dagId) == old(Entries(dagId))[nodeId := resp]
      ensures forall d :: d != dagId ==> Entries(d) == old(Entries(d))
    {
      if dagId !in data {
        data := data[dagId := map[]];
      }
      data := data[dagId := data[dagId][nodeId := resp]];
    }

    method Load(dagId: string, nodeId: NodeId) returns (resp: Option<Response>)
      ensures resp == if nodeId in Entries(dagId) then Some(Entries(dagId)[nodeId]) else None
    {
      if dagId in data && nodeId in data[dagId] {
        return Some(data[dagId][nodeId]);
      }
      return None;
    }

    method LoadAll(dagId: string) returns (all: map<NodeId, Response>)
      ensures all == Entries(dagId)
    {
      all := if dagId in data then data[dagId] else map[];
    }

    method Clear(dagId: string)
      modifies this
      ensures Entries(dagId) == map[]
      ensures forall d :: d != dagId ==> Entries(d) == old(Entries(d))
    {
      data := data - {dagId};
    }
  }
}

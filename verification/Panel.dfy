/**
  The panel's request handlers as they are written, each running alone on the tables. Every
  method is proved to do what the steps of module Placement do, so the theorems about steps are
  about these handlers; the last lemmas show what the handlers' unchecked statements allow.
 */
module Panel {
  import opened Common
  import opened Placement
  import opened Transfers
  import Ownership

  datatype Reply<+T> = Done(value: T) | BadRequest(reason: string) | NotFound(reason: string) | DatabaseError

  /** The statements of a create request that inserted row for server s. */
  function CreateRun(s: ServerId, row: ServerRow): seq<Step> {
    [BeginCreate(s, row), Advance(s, true), Advance(s, true)]
  }

  function DeleteRun(s: ServerId): seq<Step> {
    [BeginDelete(s), Advance(s, true), Advance(s, true)]
  }

  /** Each requested amount, or the egg's default where none is given. */
  function SizeOf(requested: Amounts, egg: Amounts): (size: Amounts)
    ensures forall r :: size.Of(r) == if requested.Of(r) != 0 then requested.Of(r) else egg.Of(r)
  {
    Amounts(if requested.memory != 0 then requested.memory else egg.memory,
            if requested.disk != 0 then requested.disk else egg.disk)
  }

  /** What one delete request does to the tables, whether or not the server was deleted before. */
  function DeleteEffect(db: Db, s: ServerId): Db
    requires s in db.servers
  {
    db.Assign(db.servers[s].alloc, None).Release(db.servers[s].node, db.servers[s].size)
  }

  /** A run of three steps, one state at a time. */
  lemma ThreeSteps(st0: State, st1: State, st2: State, st3: State, run: seq<Step>)
    requires |run| == 3
    requires Enabled(st0, run[0]) && Next(st0, run[0]) == st1
    requires Enabled(st1, run[1]) && Next(st1, run[1]) == st2
    requires Enabled(st2, run[2]) && Next(st2, run[2]) == st3
    ensures Legal(st0, run) && Exec(st0, run) == st3
  {
    var r1, r2, r3 := run[1..], run[1..][1..], run[1..][1..][1..];
    assert r1[0] == run[1] && r2[0] == run[2] && r3 == [];
    assert Legal(st3, r3) && Exec(st3, r3) == st3;
    assert Legal(st2, r2) && Exec(st2, r2) == st3;
    assert Legal(st1, r1) && Exec(st1, r1) == st3;
  }

  /** What one create request does to the tables once its row is settled. */
  function CreateEffect(db: Db, s: ServerId, row: ServerRow): Db {
    db.(servers := db.servers[s := row]).Assign(row.alloc, Some(s)).Charge(row.node, row.size)
  }

  lemma CreateRunEffect(db: Db, s: ServerId, row: ServerRow)
    requires s !in db.servers && row.node in db.nodes && row.alloc.Some?
    ensures Legal(State(db, map[]), CreateRun(s, row))
    ensures Exec(State(db, map[]), CreateRun(s, row)) == State(CreateEffect(db, s, row), map[])
  {
    var db1 := db.(servers := db.servers[s := row]);
    var db2 := db1.Assign(row.alloc, Some(s));
    ThreeSteps(State(db, map[]), State(db1, map[s := CreateAssign]), State(db2, map[s := CreateCharge]),
               State(db2.Charge(row.node, row.size), map[]), CreateRun(s, row));
  }

  lemma DeleteRunEffect(db: Db, s: ServerId)
    requires s in db.servers
    ensures Legal(State(db, map[]), DeleteRun(s))
    ensures Exec(State(db, map[]), DeleteRun(s)) == State(DeleteEffect(db, s), map[s := Deleted])
  {
    var row := db.servers[s];
    var db1 := db.Assign(row.alloc, None);
    ThreeSteps(State(db, map[]), State(db, map[s := DeleteFree(row)]), State(db1, map[s := DeleteRelease(row)]),
               State(db1.Release(row.node, row.size), map[s := Deleted]), DeleteRun(s));
  }

  class PanelTables {
    var nodes: map<NodeId, Amounts>
    var allocs: map<AllocId, AllocRow>
    var servers: map<ServerId, ServerRow>
    var transfers: map<TransferId, TransferRow>

    function Tables(): Db
      reads this
    {
      Db(nodes, allocs, servers, transfers)
    }

    constructor ()
      ensures Tables() == EMPTY.db
    {
      nodes, allocs, servers, transfers := map[], map[], map[], map[];
    }

    /**
      POST /servers. `newId` is the identifier the database gives the new row. Without a chosen
      allocation any free one of the node is taken; a requested amount of zero is an absent one.
     */
    method CreateServer(node: NodeId, chosen: Option<AllocId>, requested: Amounts,
                        egg: Option<Amounts>, newId: ServerId)
      returns (reply: Reply<ServerRow>)
      requires newId !in servers
      modifies this
      ensures reply.NotFound? <==> egg.None?
      ensures reply.BadRequest? <==>
              egg.Some? && chosen.None? && !exists a :: a in old(allocs) && TargetAvailable(old(Tables()), node, a)
      ensures reply.DatabaseError? ==> node !in old(nodes)
      ensures !reply.Done? ==> Tables() == old(Tables())
      ensures reply.Done? ==>
                var row := reply.value;
                var st := State(old(Tables()), map[]);
                && row.node == node && row.alloc.Some? && row.size == SizeOf(requested, egg.value)
                && (chosen.Some? ==> row.alloc == chosen)
                && (chosen.None? ==> TargetAvailable(old(Tables()), node, row.alloc.value))
                && Legal(st, CreateRun(newId, row)) && Exec(st, CreateRun(newId, row)) == State(Tables(), map[])
    {
      if egg.None? {
        return NotFound("Egg not found");
      }
      var allocation := chosen;
      if allocation.None? {
        if a :| a in allocs && TargetAvailable(Tables(), node, a) {
          allocation := Some(a);
        } else {
          return BadRequest("No available allocations");
        }
      }
      var row := ServerRow(node, allocation, SizeOf(requested, egg.value));
      if node !in nodes {
        return DatabaseError; // the foreign key on node_id
      }
      CreateRunEffect(Tables(), newId, row);
      servers := servers[newId := row];
      if allocation.value in allocs {
        allocs := allocs[allocation.value := allocs[allocation.value].(server := Some(newId))];
      }
      nodes := nodes[node := nodes[node].Plus(row.size)];
      reply := Done(row);
    }

    /** DELETE /servers/:id, up to queueing the deletion job. */
    method DeleteServer(id: ServerId) returns (reply: Reply<ServerRow>)
      modifies this
      ensures id !in old(servers) ==> reply.NotFound? && Tables() == old(Tables())
      ensures id in old(servers) ==>
                var st := State(old(Tables()), map[]);
                && reply == Done(old(servers)[id]) && Tables() == DeleteEffect(old(Tables()), id)
                && Legal(st, DeleteRun(id)) && Exec(st, DeleteRun(id)) == State(Tables(), map[id := Deleted])
    {
      if id !in servers {
        return NotFound("Server not found");
      }
      var server := servers[id];
      DeleteRunEffect(Tables(), id);
      if server.alloc.Some? && server.alloc.value in allocs {
        allocs := allocs[server.alloc.value := allocs[server.alloc.value].(server := None)];
      }
      if server.node in nodes {
        nodes := nodes[server.node := nodes[server.node].Minus(server.size)];
      }
      reply := Done(server);
    }

    /** POST /servers/:id/transfer: the checks in their order, then the pending transfer row. */
    method InitiateTransfer(id: ServerId, newNodeId: NodeId, newAllocationId: AllocId, newId: TransferId)
      returns (reply: Reply<Task>)
      requires newId !in transfers
      modifies this`transfers
      ensures !reply.Done? ==> Tables() == old(Tables())
      ensures reply.NotFound? <==>
              id !in servers || servers[id].node !in nodes || (servers[id].node != newNodeId && newNodeId !in nodes)
      ensures reply.BadRequest? <==>
              id in servers && servers[id].node in nodes
              && (servers[id].node == newNodeId
                  || (newNodeId in nodes && !TargetAvailable(old(Tables()), newNodeId, newAllocationId)))
      ensures reply.DatabaseError? ==> servers[id].alloc.Some? && servers[id].alloc.value !in allocs
      ensures reply.Done? ==>
                var st, step := State(old(Tables()), map[]), BeginTransfer(id, newNodeId, newAllocationId, newId);
                Enabled(st, step) && Next(st, step) == State(Tables(), map[id := reply.value])
    {
      if id !in servers || servers[id].node !in nodes { // the query joins the node
        return NotFound("Server not found");
      }
      var server := servers[id];
      if server.node == newNodeId {
        return BadRequest("Server is already on the target node");
      }
      if newNodeId !in nodes {
        return NotFound("Target node not found");
      }
      if !TargetAvailable(Tables(), newNodeId, newAllocationId) {
        return BadRequest("Allocation not available on target node");
      }
      if server.alloc.Some? && server.alloc.value !in allocs {
        return DatabaseError; // the foreign key on the old allocation
      }
      transfers := transfers[newId := TransferRow(id, server.node, newNodeId, server.alloc, newAllocationId, Pending)];
      reply := Done(Moving(MarkTransferring, server, newNodeId, newAllocationId, newId));
    }

    /**
      The try block of runTransfer up to the last agent call that is looked at; a reply of false
      there, or at a statement, is the exception that leaves the block.
     */
    method ShipData(id: ServerId, t: Task, replies: TransferPc -> bool) returns (threw: bool)
      requires t.Moving? && t.pc.MarkTransferring?
      modifies this`transfers
      ensures Drive(old(Tables()), id, t, replies) ==
              Drive(Tables(), id, t.(pc := if threw then MarkFailed else FreeOldAlloc), replies)
    {
      DriveToAllocations(Tables(), id, t, replies);
      if !replies(MarkTransferring) {
        return true;
      }
      if t.tid in transfers {
        transfers := transfers[t.tid := transfers[t.tid].(status := Transferring)];
      }
      if !replies(Export) { // the export reply carries the archive
        return true;
      }
      if !replies(Import) {
        return true;
      }
      return !replies(Finalize);
    }

    /** The database part of the try block: allocations, the server's row, counters, and the final status. */
    method Reassign(id: ServerId, t: Task, replies: TransferPc -> bool) returns (threw: bool)
      requires t.Moving? && t.pc.FreeOldAlloc?
      modifies this
      ensures Drive(old(Tables()), id, t, replies) ==
              if threw then Drive(Tables(), id, t.(pc := MarkFailed), replies) else Tables()
    {
      threw := true;
      DriveStep(Tables(), id, t, replies);
      if !replies(FreeOldAlloc) { return; }
      if t.row.alloc.Some? && t.row.alloc.value in allocs {
        allocs := allocs[t.row.alloc.value := allocs[t.row.alloc.value].(server := None)];
      }
      DriveStep(Tables(), id, t.(pc := TakeNewAlloc), replies);
      if !replies(TakeNewAlloc) { return; }
      if t.targetAlloc in allocs {
        allocs := allocs[t.targetAlloc := allocs[t.targetAlloc].(server := Some(id))];
      }
      DriveStep(Tables(), id, t.(pc := MoveServer), replies);
      if !replies(MoveServer) { return; }
      if id in servers {
        servers := servers[id := servers[id].(node := t.target, alloc := Some(t.targetAlloc))];
      }
      threw := MoveCounters(id, t.(pc := ReleaseOldNode), replies);
    }

    method MoveCounters(id: ServerId, t: Task, replies: TransferPc -> bool) returns (threw: bool)
      requires t.Moving? && t.pc.ReleaseOldNode?
      modifies this`nodes, this`transfers
      ensures Drive(old(Tables()), id, t, replies) ==
              if threw then Drive(Tables(), id, t.(pc := MarkFailed), replies) else Tables()
    {
      threw := true;
      DriveStep(Tables(), id, t, replies);
      if !replies(ReleaseOldNode) { return; }
      if t.row.node in nodes {
        nodes := nodes[t.row.node := nodes[t.row.node].Minus(t.row.size)];
      }
      DriveStep(Tables(), id, t.(pc := ChargeNewNode), replies);
      if !replies(ChargeNewNode) { return; }
      if t.target in nodes {
        nodes := nodes[t.target := nodes[t.target].Plus(t.row.size)];
      }
      DriveStep(Tables(), id, t.(pc := Cleanup), replies); // the cleanup reply is not looked at
      DriveStep(Tables(), id, t.(pc := MarkCompleted), replies);
      if !replies(MarkCompleted) { return; }
      if t.tid in transfers {
        transfers := transfers[t.tid := transfers[t.tid].(status := Completed)];
      }
      threw := false;
    }

    /** runTransfer with its catch block; the replies of the restart and cleanup calls are not used. */
    method RunTransfer(id: ServerId, t: Task, replies: TransferPc -> bool)
      requires t.Moving? && t.pc.MarkTransferring?
      modifies this
      ensures Tables() == Drive(old(Tables()), id, t, replies)
    {
      var threw := ShipData(id, t, replies);
      if !threw {
        threw := Reassign(id, t.(pc := FreeOldAlloc), replies);
      }
      if threw {
        DriveFromFailure(Tables(), id, t.(pc := MarkFailed), replies);
        if replies(MarkFailed) && t.tid in transfers {
          transfers := transfers[t.tid := transfers[t.tid].(status := Failed)];
        }
      }
    }

    /** DELETE /nodes/:id: the count of servers, then a statement that the schema may refuse. */
    method DeleteNode(id: NodeId) returns (reply: Reply<()>)
      modifies this
      ensures reply.BadRequest? <==> exists s :: s in old(servers) && old(servers)[s].node == id
      ensures reply.DatabaseError? <==>
              id in old(nodes) && !reply.BadRequest?
              && exists t :: t in old(transfers) && (old(transfers)[t].oldNode == id || old(transfers)[t].newNode == id)
      ensures !reply.Done? || id !in old(nodes) ==> Tables() == old(Tables())
      ensures reply.Done? && id in old(nodes) ==>
                var st := State(old(Tables()), map[]);
                Enabled(st, DropNode(id)) && Next(st, DropNode(id)).db == Tables()
    {
      if exists s :: s in servers && servers[s].node == id {
        return BadRequest("Cannot delete node with active servers");
      }
      if id in nodes && !NodeUnreferenced(Tables(), id) {
        return DatabaseError; // the rows of transfers that ended long ago refer to it too
      }
      if id in nodes {
        nodes := nodes - {id};
        allocs := map a | a in allocs && allocs[a].node != id :: allocs[a];
      }
      reply := Done(());
    }

    /** DELETE /allocations/:id, with nothing running between its two statements. */
    method DeleteAllocation(id: AllocId) returns (reply: Reply<()>)
      modifies this`allocs
      ensures reply.BadRequest? <==> id in old(allocs) && old(allocs)[id].server.Some?
      ensures reply.DatabaseError? <==>
              id in old(allocs) && !reply.BadRequest?
              && exists t :: t in transfers && (transfers[t].oldAlloc == Some(id) || transfers[t].newAlloc == id)
      ensures !reply.Done? ==> Tables() == old(Tables())
      ensures reply.Done? && id !in old(allocs) ==> Tables() == old(Tables())
      ensures reply.Done? && id in old(allocs) ==>
                var st := State(old(Tables()), map[]);
                Enabled(st, DropAlloc(id)) && Ownership.TargetStillFree(st, DropAlloc(id))
                && Next(st, DropAlloc(id)).db == Tables()
    {
      if id in allocs && allocs[id].server.Some? {
        return BadRequest("Cannot delete allocation assigned to a server");
      }
      if id in allocs && !AllocUnreferenced(Tables(), id) {
        return DatabaseError;
      }
      allocs := allocs - {id};
      reply := Done(());
    }

    /** POST /nodes/:id/allocations. */
    method CreateAllocation(node: NodeId, ip: string, port: int, newId: AllocId) returns (reply: Reply<AllocId>)
      requires newId !in allocs
      modifies this`allocs
      ensures reply.BadRequest? <==>
              exists a :: a in old(allocs) && old(allocs)[a].node == node && old(allocs)[a].ip == ip && old(allocs)[a].port == port
      ensures !reply.Done? ==> Tables() == old(Tables())
      ensures reply.Done? ==>
                var st := State(old(Tables()), map[]);
                Enabled(st, AddAlloc(newId, node, ip, port)) && Next(st, AddAlloc(newId, node, ip, port)).db == Tables()
    {
      if exists a :: a in allocs && allocs[a].node == node && allocs[a].ip == ip && allocs[a].port == port {
        return BadRequest("Allocation already exists");
      }
      if node !in nodes {
        return DatabaseError;
      }
      allocs := allocs[newId := AllocRow(node, ip, port, None)];
      reply := Done(newId);
    }
  }

  /**
    A delete request for a server whose deletion is already queued leaves its node's counter
    alone exactly when the server has no size, and the allocation it had exactly when nobody
    else has been given it: the handler frees both again.
   */
  lemma SecondDeleteHarmlessIff(db: Db, s: ServerId, r: Resource)
    requires s in db.servers && db.servers[s].node in db.nodes
    ensures DeleteEffect(db, s).nodes[db.servers[s].node].Of(r) == db.nodes[db.servers[s].node].Of(r)
            <==> db.servers[s].size.Of(r) == 0
    ensures DeleteEffect(db, s).allocs == db.allocs
            <==> (db.servers[s].alloc.Some? && db.servers[s].alloc.value in db.allocs
                  ==> db.allocs[db.servers[s].alloc.value].server == None)
  {
    var a := db.servers[s].alloc;
    if a.Some? && a.value in db.allocs {
      assert DeleteEffect(db, s).allocs[a.value].server == None;
      if db.allocs[a.value].server == None {
        assert DeleteEffect(db, s).allocs == db.allocs;
      }
    }
  }

  /** Two create requests that pick the same free allocation before either writes it. */
  function RaceRun(s: ServerId, x: ServerId, row: ServerRow): seq<Step> {
    [BeginCreate(s, row), BeginCreate(x, row), Advance(s, true), Advance(x, true)]
  }

  lemma OneStep(st0: State, st1: State, run: seq<Step>)
    requires run != [] && Enabled(st0, run[0]) && Next(st0, run[0]) == st1 && Legal(st1, run[1..])
    ensures Legal(st0, run) && Exec(st0, run) == Exec(st1, run[1..])
  {
  }

  /**
    The check and the write of an allocation are two statements, so from every state with a free
    allocation ownership can be lost: both servers end up holding it, and it names only one.
   */
  lemma CreateRaceSharesAllocation(st: State, s: ServerId, x: ServerId, row: ServerRow)
    requires s !in st.db.servers && s !in st.tasks && x !in st.db.servers && x !in st.tasks && s != x
    requires row.node in st.db.nodes && row.alloc.Some? && TargetAvailable(st.db, row.node, row.alloc.value)
    ensures Legal(st, RaceRun(s, x, row))
    ensures var post := Exec(st, RaceRun(s, x, row));
            && s in post.db.servers && x in post.db.servers && !Ownership.Owned(post)
            && Ownership.Held(post, s) == row.alloc == Ownership.Held(post, x)
  {
    var run := RaceRun(s, x, row);
    var s1 := Next(st, run[0]);
    var s2 := Next(s1, run[1]);
    var s3 := Next(s2, run[2]);
    var s4 := Next(s3, run[3]);
    assert run[1..][1..][1..] == run[3..] && run[1..][1..] == run[2..];
    ThreeSteps(s1, s2, s3, s4, run[1..]);
    OneStep(st, s1, run);
    SharedIsNotOwned(s4, s, x, row.alloc.value);
  }

  /** Two servers that hold the same allocation break ownership, wherever it points. */
  lemma SharedIsNotOwned(st: State, s: ServerId, x: ServerId, a: AllocId)
    requires s in st.db.servers && x in st.db.servers && s != x
    requires Ownership.Held(st, s) == Some(a) == Ownership.Held(st, x)
    ensures !Ownership.Owned(st)
  {
    assert !Ownership.HolderNamed(st, s) || !Ownership.HolderNamed(st, x);
  }
}

/** The authorization facade (internal/rebac/model.py): every operation is
    delegated to an optional store, with its own behaviour when there is none. */
module Rebac {
  import opened Types
  import opened Schema
  import opened Store

  /** The exception a write raises when no store is configured. */
  datatype ServiceError = RuntimeError(message: string)

  const NoStorageConfigured: string := "No storage configured"

  /** A value, or the error the source raises instead of returning one. */
  datatype Result<T> = Ok(value: T) | Err(error: ServiceError)

  class PermissionService {
    /** The injected store; `null` when none was given. Fixed at construction. */
    const store: Neo4jStore?

    ghost predicate Valid()
      reads this, store
    {
      store != null ==> store.Valid()
    }

    constructor (store: Neo4jStore?)
      requires store != null ==> store.Valid()
      ensures this.store == store && Valid()
    {
      this.store := store;
    }

    /** Fails with "No storage configured" when there is no store; otherwise
        returns the store's answer unchanged. */
    method WriteTuple(t: Tuple) returns (r: Result<bool>)
      requires Valid()
      modifies if store != null then {store} else {}
      ensures Valid()
      ensures store == null ==> r == Err(RuntimeError(NoStorageConfigured))
      ensures store != null ==> r == Ok(true) && t in store.edges
                                && store.Snapshot() == Merge(old(store.Snapshot()), t)
                                && store.closeCount == old(store.closeCount)
    {
      if store == null {
        return Err(RuntimeError(NoStorageConfigured));
      }
      var ok := store.WriteTuple(t);
      r := Ok(ok);
    }

    /** The empty list when there is no store; otherwise the store's rows:
        exactly the edges out of `subject`, each once. */
    method ReadTuples(subject: string) returns (result: seq<Tuple>)
      ensures store == null ==> result == []
      ensures store != null ==> forall t :: t in result <==> t in Outgoing(store.edges, subject)
      ensures forall i, j :: 0 <= i < j < |result| ==> result[i] != result[j]
    {
      if store == null {
        return [];
      }
      result := store.ReadTuples(subject);
    }

    /** Denies when there is no store; otherwise the store's decision. */
    method Check(subject: string, action: string, obj: string) returns (allowed: bool)
      ensures allowed <==> store != null && Permits(store.edges, subject, action, obj)
      ensures store == null || action !in PermissionRules ==> !allowed
    {
      if store == null {
        return false;
      }
      allowed := store.Check(subject, action, obj);
    }

    /** Closes the store once when there is one; does nothing otherwise. */
    method Close()
      modifies if store != null then {store} else {}
      ensures store != null ==> store.closeCount == old(store.closeCount) + 1
                                && store.Snapshot() == old(store.Snapshot())
    {
      if store != null {
        store.Close();
      }
    }
  }

  /** Alice owns doc:42 and views doc:7: she may write doc:42, Bob may not,
      and viewing doc:7 lets her read it but not delete it. */
  method OwnerAndViewerScenario() returns (aliceWrites: bool, bobWrites: bool, aliceReads7: bool, aliceDeletes7: bool)
    ensures aliceWrites && !bobWrites && aliceReads7 && !aliceDeletes7
  {
    var db := new Neo4jStore();
    var service := new PermissionService(db);
    var owner := Tuple("user:alice", "OWNER_OF", "doc:42");
    var viewer := Tuple("user:alice", "VIEWER", "doc:7");
    var _ := service.WriteTuple(owner);
    var _ := service.WriteTuple(viewer);
    assert db.edges == {owner, viewer};
    ScenarioDecisions(db.edges);
    aliceWrites := service.Check("user:alice", "write", "doc:42");
    bobWrites := service.Check("user:bob", "write", "doc:42");
    aliceReads7 := service.Check("user:alice", "read", "doc:7");
    aliceDeletes7 := service.Check("user:alice", "delete", "doc:7");
  }

  /** The decisions of the scenario above, over its two edges. */
  lemma ScenarioDecisions(edges: set<Tuple>)
    requires edges == {Tuple("user:alice", "OWNER_OF", "doc:42"), Tuple("user:alice", "VIEWER", "doc:7")}
    ensures Permits(edges, "user:alice", "write", "doc:42")
    ensures !Permits(edges, "user:bob", "write", "doc:42")
    ensures Permits(edges, "user:alice", "read", "doc:7")
    ensures !Permits(edges, "user:alice", "delete", "doc:7")
  {
    OwnerGrantsAll(edges, "user:alice", "write", "doc:42");
    assert Tuple("user:alice", Viewer.Value(), "doc:7") in edges;
    assert "user:bob" != "user:alice" by { assert "user:bob"[5] != "user:alice"[5]; }
    assert "doc:7" != "doc:42" by { assert |"doc:7"| != |"doc:42"|; }
  }

  /** Without a store: read is empty, check denies, write fails. */
  method NoStoreScenario(t: Tuple, action: string) returns (rows: seq<Tuple>, allowed: bool, written: Result<bool>)
    ensures rows == [] && !allowed && written.Err?
  {
    var service := new PermissionService(null);
    rows := service.ReadTuples(t.subject);
    allowed := service.Check(t.subject, action, t.obj);
    written := service.WriteTuple(t);
  }
}

/** The graph-database backed store (internal/neo4j/store.py). The database
    is modelled by what its three statements can observe: a set of typed
    edges between node ids, and the label each node id was created with. */
module Store {
  import opened Types
  import opened Schema

  /** The database contents: one edge per (subject id, edge type, target id),
      and the label of every node. */
  datatype Graph = Graph(edges: set<Tuple>, labels: map<string, NodeLabel>)

  const EmptyGraph: Graph := Graph({}, map[])

  /** Every node carries the label inferred from its id, and every edge runs
      between existing nodes. */
  ghost predicate WellLabelled(g: Graph)
  {
    && (forall id :: id in g.labels ==> g.labels[id] == InferNodeLabel(id))
    && (forall e :: e in g.edges ==> e.subject in g.labels && e.obj in g.labels)
  }

  /** The effect of the write statement: MERGE the subject node, MERGE the
      object node (each with its inferred label), MERGE the typed edge. A
      MERGE creates only what is absent. */
  function Merge(g: Graph, t: Tuple): (merged: Graph)
    ensures t in merged.edges && t.subject in merged.labels && t.obj in merged.labels
    ensures g.edges <= merged.edges && g.labels.Keys <= merged.labels.Keys
  {
    var withSubject := if t.subject in g.labels then g.labels
                       else g.labels[t.subject := InferNodeLabel(t.subject)];
    var withObject := if t.obj in withSubject then withSubject
                      else withSubject[t.obj := InferNodeLabel(t.obj)];
    Graph(g.edges + {t}, withObject)
  }

  /** The rows of the read statement: every edge out of a node whose id is
      `subject`, whatever its label. */
  function Outgoing(edges: set<Tuple>, subject: string): (rows: set<Tuple>)
    ensures rows <= edges
    ensures forall e :: e in rows ==> e.subject == subject
    ensures forall e :: e in edges - rows ==> e.subject != subject
  {
    set e | e in edges && e.subject == subject
  }

  /** The authorization decision: the action is in the rule table and some
      edge from subject to object has a type the action's rule lists. */
  ghost predicate Permits(edges: set<Tuple>, subject: string, action: string, obj: string): (allowed: bool)
    ensures allowed ==> action in PermissionRules
    ensures allowed ==> exists e :: e in Outgoing(edges, subject) && e.obj == obj
                                   && e.relation in RelationNames(PermissionRules[action])
  {
    && action in PermissionRules
    && exists r :: r in PermissionRules[action] && Tuple(subject, r.Value(), obj) in edges
  }

  /** Writing keeps every node labelled by inference. */
  lemma MergeWellLabelled(g: Graph, t: Tuple)
    requires WellLabelled(g)
    ensures WellLabelled(Merge(g, t))
    ensures Merge(g, t).labels[t.subject] == InferNodeLabel(t.subject)
    ensures Merge(g, t).labels[t.obj] == InferNodeLabel(t.obj)
  {
  }

  /** Writing adds the edge t, the nodes t.subject and t.obj when absent, and
      nothing else; no edge or node is removed and no label changes. */
  lemma MergeFrame(g: Graph, t: Tuple)
    ensures Merge(g, t).edges - g.edges <= {t}
    ensures Merge(g, t).labels.Keys == g.labels.Keys + {t.subject, t.obj}
    ensures forall id :: id in g.labels ==> Merge(g, t).labels[id] == g.labels[id]
  {
  }

  /** Writing the same tuple a second time changes nothing. */
  lemma MergeIdempotent(g: Graph, t: Tuple)
    ensures Merge(Merge(g, t), t) == Merge(g, t)
  {
  }

  /** A written tuple is among the rows read for its subject. */
  lemma ReadYourWrite(g: Graph, t: Tuple)
    ensures t in Outgoing(Merge(g, t).edges, t.subject)
    ensures Outgoing(Merge(g, t).edges, t.subject) == Outgoing(g.edges, t.subject) + {t}
  {
  }

  /** Writing never revokes a permission, and grants new ones only between
      the written tuple's own subject and object. */
  lemma MergePermits(g: Graph, t: Tuple, subject: string, action: string, obj: string)
    ensures Permits(g.edges, subject, action, obj) ==> Permits(Merge(g, t).edges, subject, action, obj)
    ensures Permits(Merge(g, t).edges, subject, action, obj) && !Permits(g.edges, subject, action, obj)
            ==> subject == t.subject && obj == t.obj && t.relation in RelationNames(PermissionRules[action])
  {
  }

  /** write, delete and admin always get the same answer. */
  lemma OwnerActionsAgree(edges: set<Tuple>, subject: string, obj: string)
    ensures Permits(edges, subject, "write", obj) == Permits(edges, subject, "delete", obj)
    ensures Permits(edges, subject, "delete", obj) == Permits(edges, subject, "admin", obj)
  {
  }

  /** An OWNER_OF edge grants every action in the table. */
  lemma OwnerGrantsAll(edges: set<Tuple>, subject: string, action: string, obj: string)
    requires Tuple(subject, OwnerOf.Value(), obj) in edges
    ensures Permits(edges, subject, action, obj) <==> action in PermissionRules
  {
  }

  /** With only a VIEWER edge, read is granted and nothing else; with only a
      MEMBER_OF or PARENT_OF edge, nothing is granted. */
  lemma SingleEdgeGrants(subject: string, action: string, obj: string)
    ensures Permits({Tuple(subject, Viewer.Value(), obj)}, subject, action, obj) <==> action == "read"
    ensures !Permits({Tuple(subject, MemberOf.Value(), obj)}, subject, action, obj)
    ensures !Permits({Tuple(subject, ParentOf.Value(), obj)}, subject, action, obj)
  {
  }

  /** The Neo4j-backed store. Its state is the database it is connected to. */
  class Neo4jStore {
    var edges: set<Tuple>
    var labels: map<string, NodeLabel>
    /** How many times the driver has been closed. */
    var closeCount: nat

    /** The database as a value. */
    function Snapshot(): Graph
      reads this
    {
      Graph(edges, labels)
    }

    ghost predicate Valid()
      reads this
    {
      WellLabelled(Snapshot())
    }

    /** Connects to a database that holds no nodes yet. */
    constructor ()
      ensures Valid() && Snapshot() == EmptyGraph && closeCount == 0
    {
      edges, labels, closeCount := {}, map[], 0;
    }

    /** Upserts both endpoint nodes and the typed edge; reports whether the
        statement returned the edge, which after MERGE it always does. */
    method WriteTuple(t: Tuple) returns (ok: bool)
      requires Valid()
      modifies this`edges, this`labels
      ensures Valid()
      ensures Snapshot() == Merge(old(Snapshot()), t)
      ensures ok <==> t in edges
      ensures ok
    {
      MergeWellLabelled(Snapshot(), t);
      var g := Merge(Snapshot(), t);
      edges, labels := g.edges, g.labels;
      ok := t in edges;
    }

    /** Builds one Tuple per row of the read statement, appending row by row.
        Row order is up to the database; each edge out of `subject` appears
        exactly once. */
    method ReadTuples(subject: string) returns (result: seq<Tuple>)
      ensures forall t :: t in result <==> t in Outgoing(edges, subject)
      ensures forall i, j :: 0 <= i < j < |result| ==> result[i] != result[j]
    {
      var records := Outgoing(edges, subject);
      result := [];
      while records != {}
        invariant records <= Outgoing(edges, subject)
        invariant forall t :: t in result <==> t in Outgoing(edges, subject) && t !in records
        invariant forall i, j :: 0 <= i < j < |result| ==> result[i] != result[j]
        decreases |records|
      {
        var record :| record in records;
        result := result + [Tuple(record.subject, record.relation, record.obj)];
        records := records - {record};
      }
    }

    /** Denies an action the rule table does not know without consulting the
        database; otherwise counts the edges from subject to object whose type
        is in the action's list and allows when the count is positive. */
    method Check(subject: string, action: string, obj: string) returns (authorized: bool)
      ensures action !in PermissionRules ==> !authorized
      ensures authorized <==> Permits(edges, subject, action, obj)
    {
      var allowedRels := AllowedRelations(action);
      if |allowedRels| == 0 {
        return false;
      }
      var names := RelationNames(allowedRels);
      var matching := set e | e in edges && e.subject == subject && e.obj == obj && e.relation in names;
      authorized := |matching| > 0;
      if authorized {
        var e :| e in matching;
        var r :| r in allowedRels && r.Value() == e.relation;
        assert Tuple(subject, r.Value(), obj) == e;
      } else {
        forall r | r in PermissionRules[action]
          ensures Tuple(subject, r.Value(), obj) !in edges
        {
          assert Tuple(subject, r.Value(), obj) !in matching;
        }
      }
    }

    /** Closes the driver; the database keeps its contents. */
    method Close()
      modifies this`closeCount
      ensures closeCount == old(closeCount) + 1
    {
      closeCount := closeCount + 1;
    }
  }
}

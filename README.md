# ReBAC authorization core in Dafny

A model of a small relationship-based access-control service. Authorization
comes from explicit relationship tuples (subject, relation, object) stored as
typed edges in a graph database. A check for (subject, action, object) looks
up the relations that the action's permission rule lists, and allows exactly
when an edge of one of those types runs from subject to object.

The project has four modules, one per source file:

- `Types` (`types.dfy`) models `internal/types.py`. It holds the immutable
  `Tuple` value and its rendered form `(subject relation→ object)`.
- `Schema` (`schema.dfy`) models `internal/neo4j/schema.py`. It holds the node
  labels, the relationship types, the fixed action-to-relation table and the
  prefix-based label inference.
- `Store` (`store.dfy`) models `internal/neo4j/store.py`. The database is
  modelled by what the three Cypher statements can observe: a set of typed
  edges (`set<Tuple>`) and the label each node id was created with
  (`map<string, NodeLabel>`). `Merge` gives the effect of the write
  statement. `Outgoing` gives the rows of the read statement. `Permits` gives
  the meaning of the check statement. The class `Neo4jStore` holds the database
  state, and its methods are proved against these functions.
- `Rebac` (`rebac.dfy`) models `internal/rebac/model.py`. The class
  `PermissionService` holds the optional store in a `const` field, so the field
  is fixed at construction. Each operation has its own behaviour when no store
  is configured: write fails with `RuntimeError("No storage configured")`
  (modelled as `Err` of a `Result`), read returns `[]`, check denies, and
  close does nothing.

Frozen-dataclass semantics come from the Dafny datatype itself. A `Tuple`
value cannot be changed after construction. Two tuples are equal exactly when
their three fields are.

## Model

| member | source | states |
|---|---|---|
| `Types.Render` | internal/types.py:15-16 | the rendered form is 5 characters longer than the three fields together, starts with "(" and ends with ")", for every tuple including ones with empty fields |
| `Types.RenderFields` | internal/types.py:15-16 | subject, relation and object can each be read back from their position in the rendered form, separated by " ", "→" and " " |
| `Types.RenderDetermines` | internal/types.py:15-16 | given the field lengths, the rendered form identifies the tuple: equal renderings come from equal tuples, and the converse holds |
| `Types.TupleEqualityIsFieldwise` | internal/types.py:8-13 | two tuples are equal iff subject, relation and object are all equal |
| `Schema.AllowedRelations` | internal/neo4j/store.py:64 | the lookup with a default is empty exactly for an action outside the table; otherwise it holds exactly that action's relations |
| `Schema.RelationNames` | internal/neo4j/store.py:79 | the list of relation values has one entry per relation type, and a string is in it iff it is the value of one of the types |
| `Schema.InferNodeLabel` | internal/neo4j/schema.py:28-38 | total classification: User iff the id starts with "user:", Group iff "group:", Document iff "doc:", Folder iff "folder:", Resource iff none of the four |
| `Schema.PrefixesExclusive` | internal/neo4j/schema.py:30-37 | no id has two of the four prefixes, so the order of the prefix tests does not matter |
| `Schema.UnprefixedIsResource` | internal/neo4j/schema.py:38 | "", "users:x" and "document:1" are Resources, while "user:alice" is a User and "doc:42" a Document |
| `Schema.RulesShape` | internal/neo4j/schema.py:21-26 | the rule table has exactly the keys read, write, delete and admin, and every list is non-empty and contains OWNER_OF |
| `Schema.RulesSufficiency` | internal/neo4j/schema.py:21-26 | VIEWER is in an action's list iff the action is read; MEMBER_OF and PARENT_OF are in no list; write, delete and admin have the same list |
| `Schema.ValuesDistinct` | internal/neo4j/schema.py:5-18 | the five label values are pairwise distinct, and so are the four relation values |
| `Store.Merge` | internal/neo4j/store.py:30-35 | after the upsert the edge t and both endpoint nodes exist, and every edge and node that existed before still exists |
| `Store.Outgoing` | internal/neo4j/store.py:46-48 | the rows are stored edges, every row has the given subject, and every stored edge left out has a different subject |
| `Store.Permits` | internal/neo4j/store.py:69-73 | a permission needs an action in the table and a stored edge from subject to object, among the subject's outgoing rows, whose type is in that action's list of relation values |
| `Store.MergeWellLabelled` | internal/neo4j/store.py:27-33 | after a write, every node still carries the label inferred from its id, every edge joins existing nodes, and both endpoints of the tuple exist with their inferred labels |
| `Store.MergeFrame` | internal/neo4j/store.py:30-35 | a write adds no edge other than t, the node ids afterwards are exactly the old ones plus t.subject and t.obj, and no existing label changes |
| `Store.MergeIdempotent` | internal/neo4j/store.py:30-35 | writing the same tuple twice leaves the same database as writing it once |
| `Store.ReadYourWrite` | internal/neo4j/store.py:31-48 | after writing t, the rows read for t.subject contain t, and they are exactly the previous rows plus t |
| `Store.MergePermits` | internal/neo4j/store.py:25-83 | a write never revokes a permission, and any permission it grants is between t.subject and t.obj for an action whose list holds t.relation |
| `Store.OwnerActionsAgree` | internal/neo4j/store.py:64-79 | check gives the same answer for write, delete and admin on every database |
| `Store.OwnerGrantsAll` | internal/neo4j/store.py:64-83 | with an OWNER_OF edge from subject to object, exactly the actions in the table are allowed |
| `Store.SingleEdgeGrants` | internal/neo4j/store.py:64-83 | with only a VIEWER edge, read is the one action allowed; with only a MEMBER_OF or PARENT_OF edge, no action is allowed |
| `Store.Neo4jStore.constructor` | internal/neo4j/store.py:13-23 | a new store is connected to an empty, well-labelled database and has not been closed |
| `Store.Neo4jStore.WriteTuple` | internal/neo4j/store.py:25-42 | the new database is the MERGE of the old one with t, nodes stay labelled by inference, and the result is true iff the edge exists afterwards, which it always does |
| `Store.Neo4jStore.ReadTuples` | internal/neo4j/store.py:44-60 | the returned list holds exactly the rows `Outgoing` gives for the subject, each once, in no promised order |
| `Store.Neo4jStore.Check` | internal/neo4j/store.py:62-83 | an unknown action is denied; otherwise the result is true iff some edge (subject, r, object) is stored with r in the action's list |
| `Store.Neo4jStore.Close` | internal/neo4j/store.py:85-88 | closes the driver once and leaves the database contents alone |
| `Rebac.PermissionService.constructor` | internal/rebac/model.py:13-20 | the store reference is the one given (possibly none); it is a constant, so no method can change it |
| `Rebac.PermissionService.WriteTuple` | internal/rebac/model.py:22-27 | without a store, fails with RuntimeError "No storage configured"; with one, the store's write happens and its result true is returned unchanged |
| `Rebac.PermissionService.ReadTuples` | internal/rebac/model.py:29-34 | without a store, the empty list; with one, exactly the rows `Outgoing` gives for the store's edges and the subject, each once |
| `Rebac.PermissionService.Check` | internal/rebac/model.py:36-45 | denies without a store or for an unknown action; otherwise allows iff the store's decision allows |
| `Rebac.PermissionService.Close` | internal/rebac/model.py:47-50 | without a store does nothing; with one, closes it exactly once and leaves its database unchanged |
| `Rebac.OwnerAndViewerScenario` | internal/rebac/model.py:22-45 | through the facade on a fresh store: an owner may write, another user may not, and a viewer may read but not delete |
| `Rebac.ScenarioDecisions` | internal/neo4j/store.py:62-83 | the four decisions of that scenario follow from its two edges alone |
| `Rebac.NoStoreScenario` | internal/rebac/model.py:22-50 | with no store, for every tuple and action: read is empty, check denies and write fails |

## Left out

- The driver, its sessions and the connection parameters are left out: the URI, user and password (internal/neo4j/store.py:13-23) are not modelled. A new store is taken to be connected to an empty database. A database that other writers filled, possibly with nodes whose label does not match their id, is not modelled.
- `Store.Neo4jStore.Close`: the driver's own shutdown is a library call. The model records only that close happened (`closeCount`), and no operation refuses to run after it.
- Database failures (unreachable server, a statement error) are not modelled. They would propagate unchanged through every operation.
- Cypher text and its assembly are not modelled. This covers the labels and the relation spliced into the write statement with `%`. An empty relation or one holding a backtick would make that statement fail or change its meaning. The model writes an edge for every relation string.
- `Store.Neo4jStore.Check`: the count query always returns one row, so the "no record means false" fallback (internal/neo4j/store.py:81) never applies in the model. The model also cannot state that an unknown action leaves the database unconsulted. It only states that such an action is denied and that check changes nothing.
- Operations are modelled as sequential. The gRPC server runs the facade on a 10-worker thread pool (cmd/server/main.py:55). Two concurrent writes run their MERGE statements (internal/neo4j/store.py:31-33) at the same time, and without a uniqueness constraint that can create duplicate nodes for one id or duplicate edges for one tuple. Such duplicates are not modelled: the edge set, and the "each edge once" promise of `Store.Neo4jStore.ReadTuples`, hold only for sequential use.
- Logging calls have no effect on results and are not modelled.
- Rebac.PermissionService: the store parameter accepts any object with the four store operations (internal/rebac/interfaces.py:6-27). The in-memory store named in the docstring (internal/rebac/model.py:18) is not modelled, so the facade's field has type `Neo4jStore?`.
- `Rebac.PermissionService.ReadTuples`: the contract cannot state "the same list object as the store returned", because the store's row order is left open. It states the same contents instead.
- `Schema.ValuesDistinct`: the source sets each relation's value to its member name (internal/neo4j/schema.py:15-18), and `RelationType.Value` spells these out. Dafny has no reflection on constructor names, so only the distinctness of the values is proved.
- The gRPC server (cmd/server/main.py) and the connection smoke test (test_neo4j.py) are transport and tooling and are not modelled.

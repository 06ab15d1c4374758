/** Node labels, relationship types, the action-to-relation table and label
    inference of the graph backend (internal/neo4j/schema.py). */
module Schema {

  /** The category a graph node is created with. */
  datatype NodeLabel = User | Group | Document | Folder | Resource
  {
    /** The label's string value as written into the graph. */
    function Value(): string
    {
      match this
      case User => "User"
      case Group => "Group"
      case Document => "Document"
      case Folder => "Folder"
      case Resource => "Resource"
    }
  }

  /** The recognised relationship types; each value is the type's name. */
  datatype RelationType = MemberOf | OwnerOf | Viewer | ParentOf
  {
    function Value(): string
    {
      match this
      case MemberOf => "MEMBER_OF"
      case OwnerOf => "OWNER_OF"
      case Viewer => "VIEWER"
      case ParentOf => "PARENT_OF"
    }
  }

  /** Action -> relations sufficient for it. */
  const PermissionRules: map<string, seq<RelationType>> := map[
    "read" := [Viewer, OwnerOf],
    "write" := [OwnerOf],
    "delete" := [OwnerOf],
    "admin" := [OwnerOf]
  ]

  /** The rule list of an action, the empty list for an unknown action
      (the `.get(action, [])` lookup). */
  function AllowedRelations(action: string): (rels: seq<RelationType>)
    ensures |rels| == 0 <==> action !in PermissionRules
    ensures forall r :: r in rels <==> action in PermissionRules && r in PermissionRules[action]
  {
    if action in PermissionRules then PermissionRules[action] else []
  }

  /** The string values of a list of relation types, in order. */
  function RelationNames(rels: seq<RelationType>): (names: seq<string>)
    ensures |names| == |rels|
    ensures forall n :: n in names <==> exists r :: r in rels && r.Value() == n
  {
    if rels == [] then []
    else
      var rest := RelationNames(rels[1..]);
      assert forall r :: r in rels <==> r == rels[0] || r in rels[1..];
      [rels[0].Value()] + rest
  }

  /** Prefix classification of an identifier. The four prefixes differ in
      their first character, so at most one of them can match. */
  function InferNodeLabel(entityId: string): (l: NodeLabel)
    ensures l == User <==> "user:" <= entityId
    ensures l == Group <==> "group:" <= entityId
    ensures l == Document <==> "doc:" <= entityId
    ensures l == Folder <==> "folder:" <= entityId
    ensures l == Resource <==>
      !("user:" <= entityId || "group:" <= entityId || "doc:" <= entityId || "folder:" <= entityId)
  {
    PrefixesExclusive(entityId);
    if "user:" <= entityId then User
    else if "group:" <= entityId then Group
    else if "doc:" <= entityId then Document
    else if "folder:" <= entityId then Folder
    else Resource
  }

  /** A string that has a prefix starts with the prefix's first character. */
  lemma PrefixHead(p: string, s: string)
    requires |p| > 0
    ensures p <= s ==> |s| > 0 && s[0] == p[0]
  {
  }

  /** No identifier has two of the four recognised prefixes. */
  lemma PrefixesExclusive(s: string)
    ensures "user:" <= s ==> !("group:" <= s || "doc:" <= s || "folder:" <= s)
    ensures "group:" <= s ==> !("doc:" <= s || "folder:" <= s)
    ensures "doc:" <= s ==> !("folder:" <= s)
  {
    PrefixHead("user:", s);
    PrefixHead("group:", s);
    PrefixHead("doc:", s);
    PrefixHead("folder:", s);
  }

  /** Identifiers without a recognised prefix, among them the empty string
      and a near miss such as "users:x", are Resources. */
  lemma UnprefixedIsResource()
    ensures InferNodeLabel("") == Resource
    ensures InferNodeLabel("users:x") == Resource
    ensures InferNodeLabel("document:1") == Resource
    ensures InferNodeLabel("user:alice") == User && InferNodeLabel("doc:42") == Document
  {
    assert !("user:" <= "users:x") by { assert "users:x"[4] != "user:"[4]; }
    assert !("doc:" <= "document:1") by { assert "document:1"[3] != "doc:"[3]; }
    PrefixHead("user:", "document:1");
    PrefixHead("group:", "document:1");
    PrefixHead("folder:", "document:1");
    assert "user:" <= "user:alice" by { assert "user:alice"[..5] == "user:"; }
    assert "doc:" <= "doc:42" by { assert "doc:42"[..4] == "doc:"; }
  }

  /** The table has exactly the four actions, each with a non-empty list
      that contains OWNER_OF. */
  lemma RulesShape()
    ensures PermissionRules.Keys == {"read", "write", "delete", "admin"}
    ensures forall a :: a in PermissionRules ==> |PermissionRules[a]| > 0 && OwnerOf in PermissionRules[a]
  {
  }

  /** VIEWER suffices only for read; MEMBER_OF and PARENT_OF suffice for
      nothing; write, delete and admin share one list. */
  lemma RulesSufficiency(action: string)
    ensures Viewer in AllowedRelations(action) <==> action == "read"
    ensures MemberOf !in AllowedRelations(action) && ParentOf !in AllowedRelations(action)
    ensures AllowedRelations("write") == AllowedRelations("delete") == AllowedRelations("admin")
  {
  }

  /** The five label values are pairwise distinct, and so are the four
      relation values. */
  lemma ValuesDistinct(a: NodeLabel, b: NodeLabel, r: RelationType, q: RelationType)
    ensures a.Value() == b.Value() <==> a == b
    ensures r.Value() == q.Value() <==> r == q
  {
  }
}

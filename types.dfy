/** The shared relationship tuple of the ReBAC service (internal/types.py). */
module Types {

  /** The atomic relationship record (subject, relation, object). A Dafny
      datatype value is immutable and compared field by field, as the frozen
      dataclass is. `object` is a Dafny keyword, so that field is `obj`. */
  datatype Tuple = Tuple(subject: string, relation: string, obj: string)

  /** The arrow between relation and object in the rendered form (U+2192). */
  const Arrow: char := '\U{2192}'

  /** The human-readable form "(subject relation→ object)". */
  function Render(t: Tuple): (r: string)
    ensures |r| == |t.subject| + |t.relation| + |t.obj| + 5
    ensures r[0] == '(' && r[|r| - 1] == ')'
  {
    "(" + t.subject + " " + t.relation + [Arrow] + " " + t.obj + ")"
  }

  /** Each field can be read back from the rendered form at its position. */
  lemma RenderFields(t: Tuple)
    ensures var r, s, l := Render(t), |t.subject|, |t.relation|;
      && r[1..1 + s] == t.subject
      && r[1 + s] == ' '
      && r[2 + s..2 + s + l] == t.relation
      && r[2 + s + l] == Arrow
      && r[3 + s + l] == ' '
      && r[4 + s + l..|r| - 1] == t.obj
  {
  }

  /** Two tuples with equally long subjects and relations render alike only
      when they are the same tuple: the rendered form loses nothing else. */
  lemma RenderDetermines(a: Tuple, b: Tuple)
    requires |a.subject| == |b.subject| && |a.relation| == |b.relation|
    ensures Render(a) == Render(b) <==> a == b
  {
    if Render(a) == Render(b) {
      RenderFields(a);
      RenderFields(b);
    }
  }

  /** Tuples are equal exactly when all three fields are. */
  lemma TupleEqualityIsFieldwise(a: Tuple, b: Tuple)
    ensures a == b <==> a.subject == b.subject && a.relation == b.relation && a.obj == b.obj
  {
  }
}

/** The tuples a check reads: what the store selects for the filters of `checkDirect` and `checkTupleToUserSet` is
    what the check engine queries. */
module Filters {
  import opened Base
  import opened Check
  import opened MemoryStore

  /** The filter on one entity and relation. */
  function DirectFilter(e: Entity, relation: string): TupleFilter {
    TupleFilter(e.typ, [e.id], relation, "", [], "")
  }

  /** It selects exactly the tuples of this entity and relation. */
  lemma {:induction false} DirectFilterSelects(e: Entity, relation: string, t: Tuple)
    requires e.typ != "" && relation != ""
    ensures Matches(DirectFilter(e, relation), t) <==> t.entity == e && t.relation == relation
  {
  }

  function Subjects(ts: seq<Tuple>): seq<Subject> {
    if ts == [] then [] else [ts[0].subject] + Subjects(ts[1..])
  }

  /** The subjects of the selected tuples, in the order of the answer, are the engine's query on this answer; and they
      are the subjects it queries from any list of all stored tuples. */
  lemma {:induction false} SelectedIsQueried(e: Entity, relation: string, store: seq<Tuple>, answer: seq<Tuple>)
    requires e.typ != "" && relation != ""
    requires forall t :: t in answer <==> t in store && Matches(DirectFilter(e, relation), t)
    ensures Query(answer, e, relation) == Subjects(answer)
    ensures forall s :: s in Query(store, e, relation) <==> s in Subjects(answer)
  {
    forall t | t in answer
      ensures t.entity == e && t.relation == relation
    {
      DirectFilterSelects(e, relation, t);
    }
    AllQueried(answer, e, relation);
    forall s
      ensures s in Query(store, e, relation) <==> s in Query(answer, e, relation)
    {
      DirectFilterSelects(e, relation, Tuple(e, relation, s));
    }
  }

  lemma {:induction false} AllQueried(ts: seq<Tuple>, e: Entity, relation: string)
    requires forall t :: t in ts ==> t.entity == e && t.relation == relation
    ensures Query(ts, e, relation) == Subjects(ts)
  {
    if ts != [] {
      assert ts[0] in ts;
      AllQueried(ts[1..], e, relation);
    }
  }
}

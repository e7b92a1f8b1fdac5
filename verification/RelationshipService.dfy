/** Writing tuples (internal/services/relationshipService.go): each tuple is normalised and checked against the types of
    its relation, and a batch is written as a whole or not at all. */
module RelationshipService {
  import opened Base
  import opened Fields
  import opened Check
  import T = Typing
  import S = SchemaService

  datatype WriteError = SchemaNotFound | EntityAndSubjectEqual | RelationNotFound | SubjectTypeNotFound

  datatype Result<+V> = Success(value: V) | Failure(error: WriteError)

  /** A subject that is not a user and names no relation gets the ellipsis. */
  function Normalized(t: Tuple): Tuple {
    if !IsSubjectUser(t.subject) && t.subject.relation == "" then t.(subject := t.subject.(relation := ELLIPSIS)) else t
  }

  /** The text a relation type is listed under: `type` or `type#relation`. */
  function TypeKey(ref: TypeReference): string {
    if ref.relation != "" then Field(ref.typ, '#', ref.relation) else ref.typ
  }

  /** The text `ValidateSubjectType` looks for. */
  function SubjectKey(s: Subject): string {
    if s.relation != "" && !IsSubjectUser(s) && s.relation != ELLIPSIS then Field(s.typ, '#', s.relation) else s.typ
  }

  predicate IsEntityAndSubjectEquals(t: Tuple) {
    t.entity == EntityOf(t.subject) && t.relation == t.subject.relation
  }

  /** The checks on one normalised tuple, in the order of the source. */
  function CheckTuple(sc: Schema, t: Tuple): Option<WriteError> {
    if t.entity.typ !in sc then Some(WriteError.SchemaNotFound)
    else if IsEntityAndSubjectEquals(t) then Some(EntityAndSubjectEqual)
    else if t.relation !in sc[t.entity.typ].relations then Some(RelationNotFound)
    else if SubjectKey(t.subject) !in TypeKeys(sc[t.entity.typ].relations[t.relation]) then Some(SubjectTypeNotFound)
    else None
  }

  function TypeKeys(refs: seq<TypeReference>): (keys: seq<string>)
    ensures forall k :: k in keys <==> exists ref :: ref in refs && TypeKey(ref) == k
  {
    if refs == [] then []
    else
      assert forall ref :: ref in refs <==> ref == refs[0] || ref in refs[1..];
      [TypeKey(refs[0])] + TypeKeys(refs[1..])
  }

  lemma {:induction false} TypeKeysStep(refs: seq<TypeReference>, i: nat)
    requires i < |refs|
    ensures TypeKeys(refs[i..]) == [TypeKey(refs[i])] + TypeKeys(refs[i + 1..])
  {
    assert refs[i..][1..] == refs[i + 1..];
  }

  lemma {:induction false} TypeKeysEnd(refs: seq<TypeReference>)
    ensures TypeKeys(refs[|refs|..]) == []
  {
  }

  /** The loop of `WriteRelationships` that lists the allowed types. */
  method AllowedTypes(refs: seq<TypeReference>) returns (vt: seq<string>)
    ensures vt == TypeKeys(refs)
  {
    hide TypeKeys;
    vt := [];
    assert refs[0..] == refs;
    TypeKeysEnd(refs);
    for i := 0 to |refs|
      invariant vt + TypeKeys(refs[i..]) == TypeKeys(refs)
    {
      TypeKeysStep(refs, i);
      if refs[i].relation != "" {
        vt := vt + [Field(refs[i].typ, '#', refs[i].relation)];
      } else {
        vt := vt + [refs[i].typ];
      }
    }
  }

  method ValidateSubjectType(s: Subject, relationTypes: seq<string>) returns (ok: bool)
    ensures ok <==> SubjectKey(s) in relationTypes
  {
    if |relationTypes| == 0 {
      return false;
    }
    var key := s.typ;
    if s.relation != "" {
      if !IsSubjectUser(s) {
        if s.relation != ELLIPSIS {
          key := key + "#" + s.relation;
        }
      }
    }
    return key in relationTypes;
  }

  /** The tuple handed on for `given`: the same entity, relation and subject, but for the subject's relation when it is
      empty and the subject is no user. */
  ghost predicate HandedOn(given: Tuple, t: Tuple) {
    && t.entity == given.entity && t.relation == given.relation
    && t.subject.typ == given.subject.typ && t.subject.id == given.subject.id
    && (given.subject.relation != "" || given.subject.typ == "user" ==> t.subject.relation == given.subject.relation)
    && (given.subject.relation == "" && given.subject.typ != "user" ==> t.subject.relation == "...")
  }

  /** All tuples of the batch, or the error of the first tuple that has one. */
  method WriteRelationships(sc: Schema, tuples: seq<Tuple>) returns (r: Result<seq<Tuple>>)
    ensures r.Success? ==> |r.value| == |tuples| && forall i :: 0 <= i < |tuples| ==> HandedOn(tuples[i], r.value[i])
    ensures r.Success? ==>
              |r.value| == |tuples| &&
              forall i :: 0 <= i < |tuples| ==>
                r.value[i] == Normalized(tuples[i]) && CheckTuple(sc, r.value[i]) == None
    ensures r.Failure? ==>
              exists i :: 0 <= i < |tuples| && CheckTuple(sc, Normalized(tuples[i])) == Some(r.error) &&
                          forall j :: 0 <= j < i ==> CheckTuple(sc, Normalized(tuples[j])) == None
  {
    var relationships: seq<Tuple> := [];
    for i := 0 to |tuples|
      invariant |relationships| == i
      invariant forall j :: 0 <= j < i ==>
                  relationships[j] == Normalized(tuples[j]) && CheckTuple(sc, relationships[j]) == None
    {
      var subject := tuples[i].subject;
      if !IsSubjectUser(subject) && subject.relation == "" {
        subject := subject.(relation := ELLIPSIS);
      }
      var tup := tuples[i].(subject := subject);
      assert tup == Normalized(tuples[i]);
      if tup.entity.typ !in sc {
        return Failure(WriteError.SchemaNotFound);
      }
      if IsEntityAndSubjectEquals(tup) {
        return Failure(EntityAndSubjectEqual);
      }
      if tup.relation !in sc[tup.entity.typ].relations {
        return Failure(RelationNotFound);
      }
      var vt := AllowedTypes(sc[tup.entity.typ].relations[tup.relation]);
      var ok := ValidateSubjectType(subject, vt);
      if !ok {
        return Failure(SubjectTypeNotFound);
      }
      relationships := relationships + [tup];
    }
    return Success(relationships);
  }

  // ---------------------------------------------------------------- what is accepted

  lemma {:induction false} SubjectKeyMatches(s: Subject, ref: TypeReference)
    requires '#' !in s.typ && '#' !in ref.typ && ref.relation != ELLIPSIS && (!IsSubjectUser(s) ==> s.relation != "")
    ensures SubjectKey(s) == TypeKey(ref) <==> T.TypeOf(s) == ref
  {
    var a := T.TypeOf(s);
    assert SubjectKey(s) == TypeKey(a);
    if a.relation != "" && ref.relation != "" {
      if TypeKey(a) == TypeKey(ref) {
        FieldIsInjective(a.typ, ref.typ, '#', a.relation, ref.relation);
      }
    } else if a.relation != "" {
      assert TypeKey(a)[|a.typ|] == '#';
    } else if ref.relation != "" {
      assert TypeKey(ref)[|ref.typ|] == '#';
    }
  }

  /** Normalising is what `HandedOn` says, and leaves no choice. */
  lemma {:induction false} NormalizedIsHandedOn(given: Tuple, t: Tuple)
    ensures HandedOn(given, t) <==> t == Normalized(given)
  {
  }

  /** The type of the subject as it is given: its type, and its relation if it is a userset. */
  predicate IsTypeOf(ref: TypeReference, s: Subject) {
    ref.typ == s.typ && ref.relation == if s.typ == "user" || s.relation == "..." then "" else s.relation
  }

  ghost predicate Listed(refs: seq<TypeReference>, s: Subject) {
    exists ref :: ref in refs && IsTypeOf(ref, s)
  }

  /** The tuple relates a userset to itself; an empty relation of a subject that is no user counts as `...`. */
  predicate RelatesItself(t: Tuple) {
    && t.entity.typ == t.subject.typ && t.entity.id == t.subject.id
    && t.relation == if t.subject.relation == "" && t.subject.typ != "user" then "..." else t.subject.relation
  }

  /** On a well-typed schema, a tuple as it is given is accepted exactly when its relation is defined and lists the
      type of its subject, and it does not relate a userset to itself: both directions. */
  lemma {:induction false} CheckAcceptsIff(sc: Schema, given: Tuple)
    requires T.WellTyped(sc) && '#' !in given.subject.typ
    ensures CheckTuple(sc, Normalized(given)) == None <==>
            && given.entity.typ in sc
            && given.relation in sc[given.entity.typ].relations
            && Listed(sc[given.entity.typ].relations[given.relation], given.subject)
            && !RelatesItself(given)
  {
    var t := Normalized(given);
    if t.entity.typ in sc && t.relation in sc[t.entity.typ].relations {
      var refs := sc[t.entity.typ].relations[t.relation];
      forall ref | ref in refs
        ensures SubjectKey(t.subject) == TypeKey(ref) <==> T.TypeOf(t.subject) == ref
        ensures T.TypeOf(t.subject) == ref <==> IsTypeOf(ref, given.subject)
      {
        assert T.ReferenceTyped(sc, ref);
        SubjectKeyMatches(t.subject, ref);
      }
    }
  }

  /** Which error a refused tuple gets: the first of these that applies to the tuple as it is given. */
  lemma {:induction false} RefusedFor(sc: Schema, given: Tuple)
    requires T.WellTyped(sc) && '#' !in given.subject.typ
    ensures CheckTuple(sc, Normalized(given)) ==
            if given.entity.typ !in sc then Some(WriteError.SchemaNotFound)
            else if RelatesItself(given) then Some(EntityAndSubjectEqual)
            else if given.relation !in sc[given.entity.typ].relations then Some(RelationNotFound)
            else if !Listed(sc[given.entity.typ].relations[given.relation], given.subject)
            then Some(SubjectTypeNotFound)
            else None
  {
    CheckAcceptsIff(sc, given);
  }

  /** A store into which only the results of accepted batches were written. */
  ghost predicate WrittenBy(sc: Schema, store: seq<Tuple>) {
    forall t :: t in store ==>
      exists given: Tuple :: '#' !in given.subject.typ && HandedOn(given, t) && CheckTuple(sc, t) == None
  }

  lemma {:induction false} AcceptedAsHandedOn(sc: Schema, given: Tuple)
    requires T.WellTyped(sc) && '#' !in given.subject.typ && CheckTuple(sc, Normalized(given)) == None
    ensures T.Accepted(sc, Normalized(given))
  {
    CheckAcceptsIff(sc, given);
    var refs := sc[given.entity.typ].relations[given.relation];
    var ref :| ref in refs && IsTypeOf(ref, given.subject);
    assert T.ReferenceTyped(sc, ref);
    assert T.TypeOf(Normalized(given).subject) == ref;
  }

  lemma {:induction false} WrittenStoreConforms(sc: Schema, store: seq<Tuple>)
    requires T.WellTyped(sc) && WrittenBy(sc, store)
    ensures T.Conforms(sc, store)
  {
    forall t | t in store
      ensures T.Accepted(sc, t)
    {
      var given: Tuple :| '#' !in given.subject.typ && HandedOn(given, t) && CheckTuple(sc, t) == None;
      NormalizedIsHandedOn(given, t);
      AcceptedAsHandedOn(sc, given);
    }
  }

  /** From the schema text to the check: on an accepted schema whose walks are typed, with tuples written through the
      service, a check of a defined name fails for no other reason than depth. */
  lemma {:induction false} CheckNeverGetsStuck(text: string, store: seq<Tuple>, r: Request, limit: Limit)
    requires S.Accepts(text)
    requires var sc := S.DefinitionMap(S.Definitions(text));
             T.WalksTyped(sc) && WrittenBy(sc, store) && Defines(sc, r.entity.typ, r.permission)
    ensures T.OnlyDepth(Execute(World(S.DefinitionMap(S.Definitions(text)), store, iset{}, false, limit), r))
  {
    var sc := S.DefinitionMap(S.Definitions(text));
    S.AcceptedSchemaIsWellTyped(text);
    WrittenStoreConforms(sc, store);
    T.ExecuteOnlyDepth(World(sc, store, iset{}, false, limit), r);
  }

  /** The same where walks go over relations with direct types only: validation has looked at every name they compute,
      so nothing is assumed of the computed names. */
  lemma {:induction false} DirectCheckNeverGetsStuck(text: string, store: seq<Tuple>, r: Request, limit: Limit)
    requires S.Accepts(text)
    requires var sc := S.DefinitionMap(S.Definitions(text));
             T.WalksAreDirect(sc) && WrittenBy(sc, store) && Defines(sc, r.entity.typ, r.permission)
    ensures T.OnlyDepth(Execute(World(S.DefinitionMap(S.Definitions(text)), store, iset{}, false, limit), r))
  {
    S.AcceptedSchemaIsWellTyped(text);
    T.DirectWalksAreTyped(S.DefinitionMap(S.Definitions(text)));
    CheckNeverGetsStuck(text, store, r, limit);
  }
}

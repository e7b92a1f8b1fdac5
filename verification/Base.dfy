/** Data shapes shared by every component: tuples, schema definitions, check requests. */
module Base {

  /** pkg/tuple/tuple.go: the type whose subjects are never followed as usersets. */
  const USER := "user"

  /** pkg/tuple/tuple.go: the relation stored for a subject that names a whole entity. */
  const ELLIPSIS := "..."

  datatype Option<+T> = None | Some(value: T)

  datatype Entity = Entity(typ: string, id: string)

  datatype Subject = Subject(typ: string, id: string, relation: string)

  datatype Tuple = Tuple(entity: Entity, relation: string, subject: Subject)

  datatype Operation = Unspecified | Union | Intersection

  datatype Leaf =
    | ComputedUserSet(exclusion: bool, relation: string)
    | TupleToUserSet(exclusion: bool, tupleSet: string, relation: string)

  /** `NoChild` is the protobuf oneof with neither arm set. */
  datatype Child =
    | Rewrite(op: Operation, children: seq<Child>)
    | LeafChild(leaf: Leaf)
    | NoChild

  datatype Reference = RelationReference | ActionReference

  /** One allowed subject type of a relation; `relation` is empty for a direct type. */
  datatype TypeReference = TypeReference(typ: string, relation: string)

  datatype EntityDefinition = EntityDefinition(
    name: string,
    relations: map<string, seq<TypeReference>>,
    actions: map<string, Child>,
    references: map<string, Reference>)

  /** What the schema reader answers for one schema version. */
  type Schema = map<string, EntityDefinition>

  predicate IsSubjectUser(s: Subject) {
    s.typ == USER
  }

  /** A subject that a relation check follows: `type:id#relation` with a real relation. */
  predicate IsUserset(s: Subject) {
    !IsSubjectUser(s) && s.relation != ELLIPSIS
  }

  function EntityOf(s: Subject): Entity {
    Entity(s.typ, s.id)
  }

  /** Is `name` something the entity type defines, as a relation or as an action? */
  predicate Defines(sc: Schema, typ: string, name: string) {
    typ in sc && name in sc[typ].references
  }

  predicate DefinesRelation(sc: Schema, typ: string, name: string) {
    Defines(sc, typ, name) && sc[typ].references[name] == RelationReference
  }

  predicate DefinesAction(sc: Schema, typ: string, name: string) {
    Defines(sc, typ, name) && sc[typ].references[name] == ActionReference && name in sc[typ].actions
  }

  /** The leaf `leaf` occurs in the tree. */
  ghost predicate HasLeaf(c: Child, leaf: Leaf) {
    match c
    case NoChild => false
    case LeafChild(l) => l == leaf
    case Rewrite(_, children) => exists i :: 0 <= i < |children| && HasLeaf(children[i], leaf)
  }
}

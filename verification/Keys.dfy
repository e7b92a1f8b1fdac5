/** The text of a cache key (internal/keys/command.go and the printers of pkg/tuple/tuple.go). The hash of
    the text is taken to be injective. */
module Keys {
  import opened Base
  import opened Fields
  import opened Check

  /** The part of a request that selects the data it is answered from. */
  datatype Scope = Scope(tenant: string, version: string, snap: string)

  /** `type:id`, with `#relation` unless the subject is a user. */
  function SubjectToString(s: Subject): string {
    Field(s.typ, ':', if IsSubjectUser(s) then s.id else Field(s.id, '#', s.relation))
  }

  /** `check_tenant_version:snap:type:id#permission@subject`. */
  function CheckKey(scope: Scope, g: Goal): string {
    "check_" +
    Field(scope.tenant, '_',
    Field(scope.version, ':',
    Field(scope.snap, ':',
    Field(g.entity.typ, ':',
    Field(g.entity.id, '#',
    Field(g.permission, '@', SubjectToString(g.subject)))))))
  }

  /** Each field is free of the separator that ends it; a user subject names no relation. */
  ghost predicate Separable(scope: Scope, g: Goal) {
    && '_' !in scope.tenant
    && ':' !in scope.version
    && ':' !in scope.snap
    && ':' !in g.entity.typ
    && '#' !in g.entity.id
    && '@' !in g.permission
    && ':' !in g.subject.typ
    && (if IsSubjectUser(g.subject) then g.subject.relation == "" else '#' !in g.subject.id)
  }

  /** Names of a schema hold no separator of a key. */
  ghost predicate CleanNames(sc: Schema) {
    && (forall typ :: typ in sc ==> ':' !in typ)
    && (forall typ, n :: typ in sc && n in sc[typ].relations ==> '@' !in n)
  }

  lemma {:induction false} SubjectTextIsInjective(s: Subject, t: Subject)
    requires ':' !in s.typ && ':' !in t.typ
    requires if IsSubjectUser(s) then s.relation == "" else '#' !in s.id
    requires if IsSubjectUser(t) then t.relation == "" else '#' !in t.id
    requires SubjectToString(s) == SubjectToString(t)
    ensures s == t
  {
    FieldIsInjective(s.typ, t.typ, ':',
      if IsSubjectUser(s) then s.id else Field(s.id, '#', s.relation),
      if IsSubjectUser(t) then t.id else Field(t.id, '#', t.relation));
    if !IsSubjectUser(s) {
      FieldIsInjective(s.id, t.id, '#', s.relation, t.relation);
    }
  }

  /** Two requests with the same key text ask the same question of the same data. */
  lemma {:induction false} CheckKeyIsInjective(a: Scope, g: Goal, b: Scope, h: Goal)
    requires Separable(a, g) && Separable(b, h) && CheckKey(a, g) == CheckKey(b, h)
    ensures a == b && g == h
  {
    var g5 := Field(g.permission, '@', SubjectToString(g.subject));
    var h5 := Field(h.permission, '@', SubjectToString(h.subject));
    var g4, h4 := Field(g.entity.id, '#', g5), Field(h.entity.id, '#', h5);
    var g3, h3 := Field(g.entity.typ, ':', g4), Field(h.entity.typ, ':', h4);
    var g2, h2 := Field(a.snap, ':', g3), Field(b.snap, ':', h3);
    var g1, h1 := Field(a.version, ':', g2), Field(b.version, ':', h2);
    assert Field(a.tenant, '_', g1) == CheckKey(a, g)[6..] == Field(b.tenant, '_', h1);
    FieldIsInjective(a.tenant, b.tenant, '_', g1, h1);
    FieldIsInjective(a.version, b.version, ':', g2, h2);
    FieldIsInjective(a.snap, b.snap, ':', g3, h3);
    FieldIsInjective(g.entity.typ, h.entity.typ, ':', g4, h4);
    FieldIsInjective(g.entity.id, h.entity.id, '#', g5, h5);
    FieldIsInjective(g.permission, h.permission, '@', SubjectToString(g.subject), SubjectToString(h.subject));
    SubjectTextIsInjective(g.subject, h.subject);
  }
}

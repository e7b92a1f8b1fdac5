/** The text form of tuples (pkg/tuple/tuple.go): printing, and parsing by splitting and trimming. A text is a sequence
    of code points. */
module TupleText {
  import opened Base
  import opened Fields
  import opened Keys

  // ---------------------------------------------------------------- the string library

  /** `unicode.IsSpace`. */
  predicate IsSpace(c: char) {
    var n := c as int;
    9 <= n <= 13 || n == 0x20 || n == 0x85 || n == 0xA0 || n == 0x1680 || 0x2000 <= n <= 0x200A ||
    n == 0x2028 || n == 0x2029 || n == 0x202F || n == 0x205F || n == 0x3000
  }

  /** `strings.TrimSpace`. */
  function Trim(s: string): string {
    if s == "" then ""
    else if IsSpace(s[0]) then Trim(s[1..])
    else if IsSpace(s[|s| - 1]) then Trim(s[..|s| - 1])
    else s
  }

  /** `strings.Split` with a separator of one character. */
  function Split(s: string, c: char): (pieces: seq<string>)
    ensures pieces != []
  {
    if s == "" then [""]
    else
      var rest := Split(s[1..], c);
      if s[0] == c then [""] + rest else [[s[0]] + rest[0]] + rest[1..]
  }

  predicate NoSpaceBefore(s: string) { s != "" ==> !IsSpace(s[0]) }

  predicate NoSpaceAfter(s: string) { s != "" ==> !IsSpace(s[|s| - 1]) }

  lemma {:induction false} TrimCuts(s: string)
    ensures NoSpaceBefore(Trim(s)) && NoSpaceAfter(Trim(s))
    ensures forall c :: c in Trim(s) ==> c in s
    ensures NoSpaceBefore(s) && NoSpaceAfter(s) ==> Trim(s) == s
    decreases |s|
  {
    if s != "" {
      if IsSpace(s[0]) {
        TrimCuts(s[1..]);
      } else if IsSpace(s[|s| - 1]) {
        TrimCuts(s[..|s| - 1]);
      }
    }
  }

  lemma {:induction false} SplitFirst(a: string, c: char, b: string)
    requires c !in a
    ensures Split(a + [c] + b, c) == [a] + Split(b, c)
  {
    var s := a + [c] + b;
    if a == "" {
      assert s[1..] == b;
    } else {
      assert s[1..] == a[1..] + [c] + b;
      SplitFirst(a[1..], c, b);
      assert [s[0]] + a[1..] == a;
    }
  }

  lemma {:induction false} SplitNone(a: string, c: char)
    requires c !in a
    ensures Split(a, c) == [a]
  {
    if a != "" {
      SplitNone(a[1..], c);
      assert [a[0]] + a[1..] == a;
    }
  }

  /** One piece is the text itself, and two pieces make up the text with the separator between them; no piece holds the
      separator. */
  lemma {:induction false} SplitBack(s: string, c: char)
    ensures var p := Split(s, c);
            && c !in p[0]
            && (|p| == 1 ==> s == p[0])
            && (|p| == 2 ==> c !in p[1] && s == p[0] + [c] + p[1])
  {
    if s != "" {
      SplitBack(s[1..], c);
      assert s == [s[0]] + s[1..];
    }
  }

  // ---------------------------------------------------------------- the parsers

  datatype EntityAndRelation = EntityAndRelation(entity: Entity, relation: string)

  function ParseEntity(text: string): Option<Entity> {
    var s := Split(Trim(text), ':');
    if |s| != 2 then None else Some(Entity(s[0], s[1]))
  }

  function ParseEntityAndRelation(text: string): Option<EntityAndRelation> {
    var s := Split(Trim(text), '#');
    if |s| > 2 then None
    else
      match ParseEntity(s[0])
      case None => None
      case Some(e) => Some(EntityAndRelation(e, if |s| == 1 then "" else s[1]))
  }

  function ParseTuple(text: string): Option<Tuple> {
    var s := Split(Trim(text), '@');
    if |s| != 2 then None
    else
      match ParseEntityAndRelation(s[0])
      case None => None
      case Some(ear) =>
        match ParseEntityAndRelation(s[1])
        case None => None
        case Some(sub) => Some(Tuple(ear.entity, ear.relation, Subject(sub.entity.typ, sub.entity.id, sub.relation)))
  }

  // ---------------------------------------------------------------- the printers

  /** `EntityAndRelationToString`. */
  function EntityAndRelationToString(ear: EntityAndRelation): string {
    Field(Field(ear.entity.typ, ':', ear.entity.id), '#', ear.relation)
  }

  function TupleToString(t: Tuple): string {
    Field(EntityAndRelationToString(EntityAndRelation(t.entity, t.relation)), '@', SubjectToString(t.subject))
  }

  // ---------------------------------------------------------------- round trip

  /** No separator in a name or id (a relation may hold a colon), and no white space where the parser trims. */
  ghost predicate CleanPart(e: Entity, relation: string) {
    && '@' !in e.typ && '#' !in e.typ && ':' !in e.typ && NoSpaceBefore(e.typ)
    && '@' !in e.id && '#' !in e.id && ':' !in e.id && NoSpaceAfter(e.id)
    && '@' !in relation && '#' !in relation && NoSpaceAfter(relation)
  }

  ghost predicate CleanTuple(t: Tuple) {
    CleanPart(t.entity, t.relation) && CleanPart(EntityOf(t.subject), t.subject.relation)
  }

  lemma {:induction false} EntityIsReadBack(e: Entity, relation: string)
    requires CleanPart(e, relation)
    ensures var s := Field(e.typ, ':', e.id);
            ParseEntity(s) == Some(e) && '#' !in s && '@' !in s && NoSpaceBefore(s) && NoSpaceAfter(s)
  {
    var s := Field(e.typ, ':', e.id);
    TrimCuts(s);
    SplitFirst(e.typ, ':', e.id);
    SplitNone(e.id, ':');
  }

  lemma {:induction false} PartIsReadBack(e: Entity, relation: string)
    requires CleanPart(e, relation)
    ensures var s := Field(Field(e.typ, ':', e.id), '#', relation);
            && ParseEntityAndRelation(s) == Some(EntityAndRelation(e, relation))
            && '@' !in s && NoSpaceBefore(s) && NoSpaceAfter(s)
    ensures relation == "" ==> ParseEntityAndRelation(Field(e.typ, ':', e.id)) == Some(EntityAndRelation(e, ""))
  {
    var f := Field(e.typ, ':', e.id);
    var s := Field(f, '#', relation);
    EntityIsReadBack(e, relation);
    TrimCuts(s);
    SplitFirst(f, '#', relation);
    SplitNone(relation, '#');
    if relation == "" {
      TrimCuts(f);
      SplitNone(f, '#');
    }
  }

  lemma {:induction false} SubjectIsReadBack(s: Subject)
    requires CleanPart(EntityOf(s), s.relation) && (IsSubjectUser(s) ==> s.relation == "")
    ensures var text := SubjectToString(s);
            && ParseEntityAndRelation(text) == Some(EntityAndRelation(EntityOf(s), s.relation))
            && '@' !in text && NoSpaceAfter(text)
  {
    PartIsReadBack(EntityOf(s), s.relation);
    EntityIsReadBack(EntityOf(s), s.relation);
    if !IsSubjectUser(s) {
      assert Field(s.typ, ':', Field(s.id, '#', s.relation)) == Field(Field(s.typ, ':', s.id), '#', s.relation);
    }
  }

  lemma {:induction false} CleanTupleIsReadBack(t: Tuple)
    requires CleanTuple(t) && (IsSubjectUser(t.subject) ==> t.subject.relation == "")
    ensures ParseTuple(TupleToString(t)) == Some(t)
  {
    hide ParseEntityAndRelation;
    var left := EntityAndRelationToString(EntityAndRelation(t.entity, t.relation));
    var right := SubjectToString(t.subject);
    PartIsReadBack(t.entity, t.relation);
    SubjectIsReadBack(t.subject);
    assert left != "" && right != "";
    var s := Field(left, '@', right);
    assert s[0] == left[0] && s[|s| - 1] == right[|right| - 1];
    TrimCuts(s);
    SplitFirst(left, '@', right);
    SplitNone(right, '@');
  }

  lemma {:induction false} ParsedEntityIsClean(text: string)
    requires ParseEntity(text).Some? && '@' !in text && '#' !in text
    ensures CleanPart(ParseEntity(text).value, "")
  {
    var s := Trim(text);
    TrimCuts(text);
    SplitBack(s, ':');
    var p := Split(s, ':');
    assert s == p[0] + [':'] + p[1];
    assert forall c :: c in p[0] || c in p[1] ==> c in s;
  }

  lemma {:induction false} ParsedPartIsClean(text: string)
    requires ParseEntityAndRelation(text).Some? && '@' !in text
    ensures CleanPart(ParseEntityAndRelation(text).value.entity, ParseEntityAndRelation(text).value.relation)
  {
    var s := Trim(text);
    TrimCuts(text);
    SplitBack(s, '#');
    var p := Split(s, '#');
    assert forall c :: c in p[0] ==> c in s;
    if |p| == 2 {
      assert forall c :: c in p[1] ==> c in s;
    }
    ParsedEntityIsClean(p[0]);
  }

  /** Whatever the parser accepts is clean. */
  lemma {:induction false} ParsedTupleIsClean(text: string)
    requires ParseTuple(text).Some?
    ensures CleanTuple(ParseTuple(text).value)
  {
    hide ParseEntityAndRelation, CleanPart;
    var p := Split(Trim(text), '@');
    SplitBack(Trim(text), '@');
    ParsedPartIsClean(p[0]);
    ParsedPartIsClean(p[1]);
  }

  lemma {:induction false} UserRelationIsLost(text: string)
    requires ParseTuple(text).Some? && '#' !in Split(Trim(text), '@')[1]
    ensures ParseTuple(text).value.subject.relation == ""
  {
    var s := Split(Trim(text), '@')[1];
    TrimCuts(s);
    SplitNone(Trim(s), '#');
  }

  /** A printed tuple parses back to itself if and only if its fields are clean and a user subject names no relation. */
  lemma {:induction false} TupleTextRoundTripIff(t: Tuple)
    ensures ParseTuple(TupleToString(t)) == Some(t) <==>
            CleanTuple(t) && (IsSubjectUser(t.subject) ==> t.subject.relation == "")
  {
    hide ParseTuple, CleanTuple;
    if CleanTuple(t) && (IsSubjectUser(t.subject) ==> t.subject.relation == "") {
      CleanTupleIsReadBack(t);
    }
    if ParseTuple(TupleToString(t)) == Some(t) {
      ParsedTupleIsClean(TupleToString(t));
      if IsSubjectUser(t.subject) {
        UserSubjectText(t);
        UserRelationIsLost(TupleToString(t));
      }
    }
  }

  lemma {:induction false} UserSubjectText(t: Tuple)
    requires CleanTuple(t) && IsSubjectUser(t.subject)
    ensures Split(Trim(TupleToString(t)), '@') ==
            [EntityAndRelationToString(EntityAndRelation(t.entity, t.relation)), SubjectToString(t.subject)]
    ensures '#' !in SubjectToString(t.subject)
  {
    var left := EntityAndRelationToString(EntityAndRelation(t.entity, t.relation));
    var right := SubjectToString(t.subject);
    PartIsReadBack(t.entity, t.relation);
    EntityIsReadBack(EntityOf(t.subject), t.subject.relation);
    assert left != "" && right != "";
    var s := Field(left, '@', right);
    assert s[0] == left[0] && s[|s| - 1] == right[|right| - 1];
    TrimCuts(s);
    SplitFirst(left, '@', right);
    SplitNone(right, '@');
  }
}

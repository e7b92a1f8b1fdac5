/** Syntax trees of the schema language and their printed form (pkg/dsl/ast/node.go). A keyword token that carries
    no information (`entity`, `relation`, `action`, `@`) is not kept.
    The text of a node is defined in front of a following text `rest`; the printing methods are proved against it. */
module Ast {
  import opened Tokens

  /** `@type` or `@type#relation`; `relation` is NO_TOKEN when absent. */
  datatype TypeStatement = TypeStatement(typ: Token, relation: Token)

  datatype RelationStatement = RelationStatement(name: Token, types: seq<TypeStatement>)

  /** `prefix` is the token of `not`, or NO_TOKEN. */
  datatype Expression =
    | Identifier(prefix: Token, idents: seq<Token>)
    | Infix(left: Expression, op: Token, right: Expression)

  datatype ActionStatement = ActionStatement(name: Token, expression: Expression)

  datatype EntityStatement = EntityStatement(
    name: Token,
    relations: seq<RelationStatement>,
    actions: seq<ActionStatement>)

  function TypeText(t: TypeStatement, rest: string): string {
    ['@'] + (t.typ.literal + (if t.relation.literal == "" then rest else ['#'] + (t.relation.literal + rest)))
  }

  function TypesText(ts: seq<TypeStatement>, rest: string): string {
    if ts == [] then rest else TypeText(ts[0], [' '] + TypesText(ts[1..], rest))
  }

  function RelationText(r: RelationStatement, rest: string): string {
    ['\t'] + ("relation" + ([' '] + (r.name.literal + ([' '] + TypesText(r.types, rest)))))
  }

  function RelationsText(rs: seq<RelationStatement>, rest: string): string {
    if rs == [] then rest else RelationText(rs[0], ['\n'] + RelationsText(rs[1..], rest))
  }

  function IdentsText(idents: seq<Token>, rest: string): string {
    if idents == [] then rest
    else if |idents| == 1 then idents[0].literal + rest
    else idents[0].literal + (['.'] + IdentsText(idents[1..], rest))
  }

  function ExpressionText(e: Expression, rest: string): string {
    match e
    case Identifier(prefix, idents) =>
      if prefix.literal != "" then "not" + ([' '] + IdentsText(idents, rest)) else IdentsText(idents, rest)
    case Infix(left, op, right) =>
      ['('] + ExpressionText(left, [' '] + (op.literal + ([' '] + ExpressionText(right, [')'] + rest))))
  }

  function ActionText(a: ActionStatement, rest: string): string {
    ['\t'] + ("action" + ([' '] + (a.name.literal + ([' '] + (['='] + ([' '] + ExpressionText(a.expression, rest)))))))
  }

  function ActionsText(acts: seq<ActionStatement>, rest: string): string {
    if acts == [] then rest else ActionText(acts[0], ['\n'] + ActionsText(acts[1..], rest))
  }

  function EntityText(e: EntityStatement, rest: string): string {
    "entity" + ([' '] + (e.name.literal + ([' '] + (['{'] + (['\n'] +
    RelationsText(e.relations, ['\n'] + ActionsText(e.actions, ['}'] + ([' '] + (['\n'] + rest)))))))))
  }

  // ---------------------------------------------------------------- text in front of a text

  lemma {:induction false} TypeTextAppend(t: TypeStatement, rest: string)
    ensures TypeText(t, rest) == TypeText(t, "") + rest
  {
    if t.relation.literal != "" {
      assert ['#'] + (t.relation.literal + rest) == (['#'] + (t.relation.literal + "")) + rest;
    }
  }

  lemma {:induction false} TypesTextAppend(ts: seq<TypeStatement>, rest: string)
    ensures TypesText(ts, rest) == TypesText(ts, "") + rest
  {
    if ts != [] {
      TypesTextAppend(ts[1..], rest);
      TypeTextAppend(ts[0], [' '] + TypesText(ts[1..], rest));
      TypeTextAppend(ts[0], [' '] + TypesText(ts[1..], ""));
    }
  }

  lemma {:induction false} RelationTextAppend(r: RelationStatement, rest: string)
    ensures RelationText(r, rest) == RelationText(r, "") + rest
  {
    TypesTextAppend(r.types, rest);
  }

  lemma {:induction false} RelationsTextAppend(rs: seq<RelationStatement>, rest: string)
    ensures RelationsText(rs, rest) == RelationsText(rs, "") + rest
  {
    if rs != [] {
      RelationsTextAppend(rs[1..], rest);
      RelationTextAppend(rs[0], ['\n'] + RelationsText(rs[1..], rest));
      RelationTextAppend(rs[0], ['\n'] + RelationsText(rs[1..], ""));
    }
  }

  lemma {:induction false} IdentsTextAppend(idents: seq<Token>, rest: string)
    ensures IdentsText(idents, rest) == IdentsText(idents, "") + rest
  {
    if |idents| > 1 {
      IdentsTextAppend(idents[1..], rest);
    }
  }

  lemma {:induction false} ExpressionTextAppend(e: Expression, rest: string)
    ensures ExpressionText(e, rest) == ExpressionText(e, "") + rest
  {
    match e
    case Identifier(prefix, idents) =>
      IdentsTextAppend(idents, rest);
    case Infix(left, op, right) =>
      ExpressionTextAppend(right, [')'] + rest);
      ExpressionTextAppend(right, [')'] + "");
      ExpressionTextAppend(left, [' '] + (op.literal + ([' '] + ExpressionText(right, [')'] + rest))));
      ExpressionTextAppend(left, [' '] + (op.literal + ([' '] + ExpressionText(right, [')'] + ""))));
  }

  lemma {:induction false} ActionTextAppend(a: ActionStatement, rest: string)
    ensures ActionText(a, rest) == ActionText(a, "") + rest
  {
    ExpressionTextAppend(a.expression, rest);
  }

  lemma {:induction false} ActionsTextAppend(acts: seq<ActionStatement>, rest: string)
    ensures ActionsText(acts, rest) == ActionsText(acts, "") + rest
  {
    if acts != [] {
      ActionsTextAppend(acts[1..], rest);
      ActionTextAppend(acts[0], ['\n'] + ActionsText(acts[1..], rest));
      ActionTextAppend(acts[0], ['\n'] + ActionsText(acts[1..], ""));
    }
  }

  // ---------------------------------------------------------------- the printers

  /** `RelationTypeStatement.String`. */
  function TypeString(t: TypeStatement): (s: string)
    ensures s == TypeText(t, "")
  {
    "@" + t.typ.literal + if t.relation.literal != "" then "#" + t.relation.literal else ""
  }

  /** `RelationStatement.String`. */
  method RelationString(r: RelationStatement) returns (sb: string)
    ensures sb == RelationText(r, "")
  {
    sb := "\t" + "relation" + " " + r.name.literal + " ";
    for i := 0 to |r.types|
      invariant sb + TypesText(r.types[i..], "") == RelationText(r, "")
    {
      TypeTextAppend(r.types[i], [' '] + TypesText(r.types[i..][1..], ""));
      assert r.types[i..][1..] == r.types[i + 1..];
      sb := sb + TypeString(r.types[i]);
      sb := sb + " ";
    }
  }

  /** `Identifier.String`: it indexes the last identifier, so there must be one. */
  method IdentifierString(e: Expression) returns (sb: string)
    requires e.Identifier? && e.idents != []
    ensures sb == ExpressionText(e, "")
  {
    sb := "";
    if e.prefix.literal != "" {
      sb := sb + "not";
      sb := sb + " ";
    }
    var last := |e.idents| - 1;
    for i := 0 to last
      invariant sb + IdentsText(e.idents[i..], "") == ExpressionText(e, "")
    {
      assert e.idents[i..][1..] == e.idents[i + 1..];
      sb := sb + e.idents[i].literal;
      sb := sb + ".";
    }
    sb := sb + e.idents[last].literal;
  }

  ghost predicate Printable(e: Expression) {
    match e
    case Identifier(_, idents) => idents != []
    case Infix(left, _, right) => Printable(left) && Printable(right)
  }

  /** `InfixExpression.String`, down to the identifiers. */
  method ExpressionString(e: Expression) returns (sb: string)
    requires Printable(e)
    ensures sb == ExpressionText(e, "")
  {
    match e
    case Identifier(_, _) =>
      sb := IdentifierString(e);
    case Infix(left, op, right) =>
      var l := ExpressionString(left);
      var r := ExpressionString(right);
      sb := "(" + l + " " + op.literal + " " + r + ")";
      ExpressionTextAppend(right, [')'] + "");
      ExpressionTextAppend(left, [' '] + (op.literal + ([' '] + ExpressionText(right, [')'] + ""))));
  }

  /** `ActionStatement.String`. */
  method ActionString(a: ActionStatement) returns (sb: string)
    requires Printable(a.expression)
    ensures sb == ActionText(a, "")
  {
    var text := ExpressionString(a.expression);
    sb := "\t" + "action" + " " + a.name.literal + " = " + text;
  }

  lemma {:induction false} RelationLine(rs: seq<RelationStatement>, i: nat)
    requires i < |rs|
    ensures RelationsText(rs[i..], "") == RelationText(rs[i], "") + "\n" + RelationsText(rs[i + 1..], "")
  {
    assert rs[i..][1..] == rs[i + 1..];
    RelationTextAppend(rs[i], ['\n'] + RelationsText(rs[i + 1..], ""));
  }

  lemma {:induction false} ActionLine(acts: seq<ActionStatement>, i: nat)
    requires i < |acts|
    ensures ActionsText(acts[i..], "") == ActionText(acts[i], "") + "\n" + ActionsText(acts[i + 1..], "")
  {
    assert acts[i..][1..] == acts[i + 1..];
    ActionTextAppend(acts[i], ['\n'] + ActionsText(acts[i + 1..], ""));
  }

  /** The loop of `EntityStatement.String` over the relations. */
  method RelationLines(rs: seq<RelationStatement>) returns (sb: string)
    ensures sb == RelationsText(rs, "")
  {
    sb := "";
    for i := 0 to |rs|
      invariant sb + RelationsText(rs[i..], "") == RelationsText(rs, "")
    {
      RelationLine(rs, i);
      var text := RelationString(rs[i]);
      sb := sb + text;
      sb := sb + "\n";
    }
  }

  /** The loop of `EntityStatement.String` over the actions. */
  method ActionLines(acts: seq<ActionStatement>) returns (sb: string)
    requires forall i :: 0 <= i < |acts| ==> Printable(acts[i].expression)
    ensures sb == ActionsText(acts, "")
  {
    sb := "";
    for i := 0 to |acts|
      invariant sb + ActionsText(acts[i..], "") == ActionsText(acts, "")
    {
      ActionLine(acts, i);
      var text := ActionString(acts[i]);
      sb := sb + text;
      sb := sb + "\n";
    }
  }

  /** `EntityStatement.String`. */
  method EntityString(e: EntityStatement) returns (sb: string)
    requires forall i :: 0 <= i < |e.actions| ==> Printable(e.actions[i].expression)
    ensures sb == EntityText(e, "")
  {
    hide RelationsText, ActionsText;
    var relations := RelationLines(e.relations);
    var actions := ActionLines(e.actions);
    sb := "entity" + " " + e.name.literal + " {" + "\n" + relations + "\n" + actions + "}" + " " + "\n";
    ghost var end := ['}'] + ([' '] + (['\n'] + ""));
    ActionsTextAppend(e.actions, end);
    RelationsTextAppend(e.relations, ['\n'] + ActionsText(e.actions, end));
  }
}

# Permify: authorization checks, schema language, stored tuples

Permify answers the question "may this subject do that on this entity?" from two inputs: a schema, written in a small
language that defines entities with relations and actions, and stored relation tuples. This project models the code that
decides those answers and proves properties of it, for all inputs, runs and schedules.

- **The check engine** (`Check`, `Membership`, `Soundness`, `Scheduling`, `Search`, `Bounds`, `Exclusion`,
  `CheckCommands`). A check is concurrent, so a request has a *set* of possible outcomes: ALLOWED, DENIED or an error,
  over every order in which the decisions of its children can arrive under the concurrency limit. The reference it is
  compared with is the least fixed point of the relation and rewrite rules (`Membership.Member`), which knows nothing of
  depth, schedule, cache or errors. `Search` gives the exact set of decisions, allowed and denied, that the engine can
  reach at all, for every schema, store and limit, and `Bounds` the depth that is enough. The class
  `CheckCommands.CheckCommand` has the loops, the branches and the shared cache of the source.
- **The goroutines of one combiner** (`Protocol`): launcher, children, receive loop, semaphore, wait group, buffered
  channel and cancellation as a small-step machine with one step per atomic operation. Its results over all runs are
  exactly those that the engine's outcome sets are made of.
- **The result cache** (`Keys`, `Cache`): key texts, and runs in which the requests of any clients, and those they start,
  read and write entries while the cache forgets any of them.
- **The schema language** (`Tokens`, `Lexer`, `Ast`, `Grammar`, `TreeShape`, `Printed`, `Reparse`, `Statements`, `Parsed`,
  `Reread`, `Parser`, `Compiler`, `Compiled`, `SchemaService`): lexer and parser objects, printers and compiler. A schema is
  stored as printed text and parsed again on every read, so printing and parsing must undo each other; the parser does
  not match parentheses, and they do so only because of the shape of the trees it can build.
- **What a schema text says**, independently of those functions: `Lexemes` writes words, signs and comments out character
  by character, `Consumed` and `Outline` compare the tokens of a text with the trees read from them, `Resolved` tells
  acceptance from the statements alone, and `Meaning` reads membership and the answers of a check off the statements.
- **Typing** (`Typing`, `RelationshipService`, `GapSchema`): what validation of the schema and of written tuples
  guarantees a check, and an accepted schema text that shows what it does not guarantee.
- **Stored tuples** (`Snapshots`, `MemoryStore`, `Filters`, `TupleText`): snapshot visibility of overlapping Postgres transactions,
  filters on the in-memory store and paging through it while it changes, and the text form of tuples.
- **Derived queries** (`LookupSchema`, `LookupEntity`).

Where the code differs from what one might expect of it, the model follows the code, and the exact condition is proved:

- `not` on a relation is handed down into nested userset checks and negated again on every level
  (internal/commands/check.go:281 and 147-152). It means complement exactly for relations that list no userset types
  (`ExclusionComplementsIff`). The soundness theorems therefore assume `PlainExclusion`: where a leaf under `not` asks,
  at that entity and relation, no userset is stored; other relations may hold any. A validated schema guarantees this for
  all accepted tuples exactly when no relation that it puts under `not` lists a userset type
  (`AcceptedStoresArePlainIff`). `SearchIsExact` needs no such assumption: it says which decisions the engine can reach
  on every schema and store, with the exclusion flag handed down as the code does. On actions `not` has no effect
  (`ActionsIgnoreExclusion`), and on a walk it means "some parent does not"; the membership rules say the same.
- A combiner starts its children in order, `limit` at a time (100 by default, internal/commands/utils.go:14), and a child
  that cannot deliver the neutral decision keeps its slot until it ends the combiner. So a decision of a child is a
  possible result exactly when fewer than `limit` of the children before it cannot be neutral (`ResultsUnderTheLimit`).
  For every limit there is a store of accepted tuples in which a member is never allowed: every check of it ends in an
  error (`LimitHidesMembers`). Members are exactly the goals that can be allowed where the limit is at least the fan-out
  of every combiner (`Roomy` in `MembersAreTheReachableGoals`); without that condition, exactly those that the search
  under the limit finds (`SearchIsExact`).
- The exclusion flag of a request is a field that clients may set (proto/base/v1/service.proto:122). The cache theorems
  name the condition on clients (`PlainClients`): none excludes a relation that holds usersets. Whatever clients send, no
  run goes wrong exactly when no relation of the schema lists a userset type (`AnyClientsAreSafeIff`); when they leave the
  flag alone, exactly when no relation under `not` does (`PlainClientsAreSafeIff`, for limits of at least 2).
  `WrongEntryAllowsOutsider` is a run that goes wrong.
- The compiler checks one direct type of a walked relation only. A check cannot get stuck exactly when every type the
  relation can hold defines the computed name (`NeverStuckIff`, for limits of at least 2; `TypedWalksNeverStick` for all);
  `AcceptedTextHasGaps` is an accepted text that fails it. Where walked relations list direct types only, every accepted
  text meets it (`DirectCheckNeverGetsStuck`).
- The parser leaves parentheses unmatched: in an expression, only an opening one behind an operator counts, if an operator
  is somewhere behind it (`ExpressionIsConsumed`); and behind closing ones that are left over one more token is stepped
  over, whatever it is (`StatementIsConsumed`).
- LookupEntity returns in every run if and only if no check of a listed id can fail (`AlwaysReturnsIff`), and in some run
  if and only if each of them can succeed (`SometimesReturnsIff`); for a permission the entity type does not define it
  never returns (`UndefinedPermissionHangs`).
- A page size of 0 passes request validation (proto/base/v1/service.proto:418-421). A page walk over an unchanging store
  ends for sizes of at least 1 (`QuietWalksEnd`) and never for 0 (`EmptyPagesNeverEnd`).
- An intersection without children denies in the check engine but allows in LookupSchema; both branches are kept.

Unless said otherwise, a text is a sequence of bytes, one per `char`.

## Model

| member | source | states |
|---|---|---|
| `Membership.MembersAreAFixedPoint` | internal/commands/check.go:248-351 | Membership, defined as the intersection of all sets closed under the relation and rewrite rules, is itself a fixed point of those rules: a goal is a member if and only if it follows from members. |
| `Soundness.ExecuteIsSound` | internal/commands/check.go:69-159 | For any depth, limit, arrival order, interruption and sound cache contents: an error-free answer is membership, or its complement for an excluded relation, if no userset is stored at the entities and relations that `not` asks for. |
| `Soundness.MembersAreTheReachableGoals` | internal/commands/check.go:69-159 | Soundness and completeness under the same condition, where the limit is at least the fan-out of every combiner: a goal is a member if and only if `Execute` can allow it at some depth. |
| `Soundness.ExecuteKeepsOutcomes` | internal/commands/check.go:118-137 | Every outcome that is possible with some cache entries stays possible with more. |
| `Search.SearchIsExact` | internal/commands/check.go:69-465 | For every schema, store and concurrency limit, exclusion included, without cache: the engine can decide a request one way, at some depth and under some schedule, if and only if a finite search (the least fixed point of rules for both decisions, with the slots that the limit leaves) finds that decision. |
| `Search.NonMembersAreDeniedIff` | internal/commands/check.go:69-465 | A goal can be denied at some depth if and only if the search below it is finite and finds nothing; what is found allowed is a member, and every member is found where the limit leaves room for every child; a goal of which nothing is found gets an error in every run at every depth. |
| `Search.EndlessGoalsAreNeverDenied` | internal/commands/check.go:248-297 | In any store and with any limit: relation goals that store no tuple for their subject, but a userset whose goal is again among them, are denied at no depth; those that are no members get an error in every run. |
| `Search.TrappedGoalsAreNeverDecided` | internal/commands/check.go:248-297 | When all their usersets stay among them, they are never decided, excluded or not. |
| `Bounds.DepthIsBounded` | internal/commands/check.go:97-100 | Whatever can be decided at all is decided at a depth that is the number of requests over the entities and names of the store and the schema. |
| `Bounds.DecidedWithinBound` | internal/commands/check.go:97-100 | The same for any finite set of requests that holds everything its members ask for. |
| `Bounds.TrappedUsersetsHideTheRest` | internal/commands/check.go:441-457 | When the first `limit` usersets of a relation are trapped, no check of the relation is ever decided, whatever the later ones hold. |
| `Bounds.LimitHidesMembers` | internal/commands/check.go:441-457 | The failing store, for every limit: accepted tuples in which the subject is a member, and every check of it, at every depth and under every schedule, ends in an error. |
| `Soundness.ExecuteDepthMonotone` | internal/commands/check.go:126-153 | An error-free decision that is possible at some depth stays possible at every greater depth, exclusion and any cache included. |
| `Soundness.ActionsIgnoreExclusion` | internal/commands/check.go:118-153 | The exclusion flag changes nothing in the outcomes of a request for an action, at any depth. |
| `Scheduling.CheckUnion` | internal/commands/check.go:375-391 | The receive loop returns the first arriving decision that is not a denial, and denies if there is none. |
| `Scheduling.CheckIntersection` | internal/commands/check.go:394-428 | The receive loop returns the first arriving decision that is not a permission, allows if there is none, and denies without children. |
| `Scheduling.UnionOfIsEveryArrival` | internal/commands/check.go:354-391 | The outcome set used for a union holds exactly the results of the loop over all orders of arrival that the limit allows and all choices of possible child decisions. |
| `Scheduling.IntersectionOfIsEveryArrival` | internal/commands/check.go:394-428 | The same for an intersection of at least one child. |
| `Scheduling.WideLimitRulesNothingOut` | internal/commands/check.go:431-465 | A limit of at least the number of children rules no decision of any child out. |
| `Scheduling.FullHouse` | internal/commands/check.go:431-465 | When none of the first `limit` children can be neutral, decisions that only later children can deliver are no results. |
| `Scheduling.ExecuteAnswers` | internal/commands/check.go:69-159 | Every request on every schema and store, cyclic ones included, has an outcome: the recursion ends. |
| `Scheduling.RunsNeverDisagree` | internal/commands/check.go:69-159 | For every schema, exclusion included, without cache: no two runs of one request, under any schedules and at any two depths, finish without error and disagree. |
| `Scheduling.MembersGrow` | internal/commands/check.go:248-351 | In an exclusion-free schema, members stay members when tuples are added. |
| `Scheduling.MoreTuplesNeverDeny` | internal/commands/check.go:69-159 | In an exclusion-free schema, a goal allowed on some tuples is denied at no depth and under no schedule on more tuples. |
| `Exclusion.ExclusionComplementsIff` | internal/commands/check.go:141-153 | In a validated schema, every error-free excluded answer on a relation is the complement of membership, over all accepted stores, subjects and depths, if and only if the relation lists no userset type. |
| `Exclusion.UsersetIsNotComplemented` | internal/commands/check.go:270-287 | The failing input, for every limit and every depth from 2 on: one stored userset tuple that the writer accepts, and a subject who is no member and is denied under exclusion as well. |
| `Exclusion.AcceptedStoresArePlainIff` | internal/commands/check.go:229-332 | In a validated schema, every accepted store is plain under `not` if and only if no relation that a leaf under `not` asks for, directly or over a walk, lists a userset type. |
| `CheckCommands.CheckCommand.Execute` | internal/commands/check.go:69-159 | With depth check, definition lookup, cache lookup and negation in the order of the source: for every request and store, whatever the cache holds, the outcome is one of the concurrent engine with the entries the cache has held; while the cache is sound and the request plain, an error-free outcome is correct and the cache stays sound. |
| `CheckCommands.CheckCommand.CheckRelation` | internal/commands/check.go:118-153 | Cache lookup, evaluation and cache write of a relation: the decision before exclusion is a cached or an evaluated one, and soundness of the cache is kept. |
| `CheckCommands.CheckCommand.CheckDirect` | internal/commands/check.go:248-297 | The loop over the stored tuples with its early return, nested userset checks and cache writes gives an outcome of the specification, for every request and store; soundness of the cache is kept for plain requests. |
| `CheckCommands.Scan` | internal/commands/check.go:256-283 | The loop finds the subject if and only if a tuple stores it, and otherwise has collected exactly the usersets, in store order. |
| `CheckCommands.CheckCommand.CheckUnion` | internal/commands/check.go:354-391 | Over nested requests, any of the first `limit` unanswered ones next, the result is one the union allows under the limit; soundness of the cache is kept when the requests are plain. |
| `CheckCommands.CheckCommand.CheckChild` | internal/commands/check.go:175-245 | Dispatch over rewrites and leaves, with the undefined kinds as errors, gives an outcome of the specification. |
| `CheckCommands.CheckCommand.CheckChildren` | internal/commands/check.go:354-428 | Children of a rewrite, any of the first `limit` unanswered ones next, stopping at the first decisive one, give an outcome of the specification. |
| `CheckCommands.CheckCommand.CheckLeaf` | internal/commands/check.go:300-351 | A computed userset asks the same entity, a walk asks every stored parent, one level deeper and with the exclusion of the leaf. |
| `CheckCommands.CheckCommand.GetCheckKey` | internal/keys/command.go:41-57 | A lookup misses or returns the entry stored for exactly the goal asked for. |
| `CheckCommands.CheckCommand.SetCheckKey` | internal/keys/command.go:26-38 | Storing an answer changes one entry, no other goal finds it, and a membership answer keeps the cache sound. |
| `Protocol.RunsAreSafe` | internal/commands/check.go:354-465 | In every interleaving with limit at least 1: at most `limit` children are evaluated at once, no child sends twice, no send and no release ever waits, the wait group counts the live launcher and unfinished children and is raised only while positive, and neither channel is used once closed. |
| `Protocol.NoDeadlock` | internal/commands/check.go:354-465 | Until the combiner has returned, some goroutine can take a step, also after an early return or a cancellation from outside. |
| `Protocol.CombinerReturns` | internal/commands/check.go:354-465 | Every run is bounded by a number of steps fixed at the start, and a run that no goroutine can extend has returned a result the big-step engine allows. |
| `Protocol.ResultsAreExact` | internal/commands/check.go:354-465 | For every limit of at least 1: the results over all runs without cancellation from outside are exactly those of the big-step engine; each of them is the result of some run. |
| `Protocol.ResultsUnderTheLimit` | internal/commands/check.go:354-465 | A decision that is not neutral can be the result if and only if some child can deliver it while fewer than `limit` of the children before it cannot be neutral; the neutral decision, if and only if every child can deliver it. |
| `Protocol.ResultsOfAWideLimit` | internal/commands/check.go:354-465 | With a limit of at least the number of children, every decision that some child can deliver can be the result. |
| `Protocol.LaterChildrenAreShutOut` | internal/commands/check.go:441-457 | When none of the first `limit` children can be neutral, no run returns a decision that only a later child can deliver. |
| `Keys.CheckKeyIsInjective` | internal/keys/command.go:27-30 | Two requests with the same unhashed key text, their fields free of the separators, ask the same question in the same scope. |
| `Keys.SubjectTextIsInjective` | pkg/tuple/tuple.go:51-56 | Subjects with the same text are the same subject. |
| `Cache.CacheStaysSound` | internal/commands/check.go:118-153 | In every run of client requests over all scopes in which no client excludes a relation that holds usersets, over stores plain under `not`, with entries dropped at any time and lookups that may see any past state: each state of the cache holds only membership answers for the goals its keys stand for. |
| `Cache.CachedAnswersAreCorrect` | internal/commands/check.go:118-153 | In such a run, an error-free answer of a plain request is the correct one, and no evaluation without the cache, at any depth, contradicts it. |
| `Cache.ExcludedStoresAreSoundIff` | internal/commands/check.go:265-295 | What excluded evaluations of a relation store is always the membership answer, over all accepted stores, if and only if the relation lists no userset type. |
| `Cache.WithinIsPlain` | internal/commands/check.go:229-332 | Over a store plain under `not`, all requests started anywhere below a plain client request are plain. |
| `Cache.WrongEntryAllowsOutsider` | internal/commands/check.go:118-153 | A run that goes wrong, for every limit: a client request whose evaluation excludes, at any depth from 2 on, a relation with a lone userset stores an entry that is no membership answer, and a plain check at any depth may then allow a subject who is no member. |
| `Cache.AnyClientsAreSafeIff` | internal/commands/check.go:118-153 | In a validated schema and for every limit, all runs over accepted tuples keep the cache sound, whatever clients send, if and only if no relation lists a userset type. |
| `Cache.PlainClientsAreSafeIff` | internal/commands/check.go:118-153 | The same for clients that leave the exclusion flag alone and limits of at least 2, if and only if no relation under `not` lists a userset type. |
| `Lexer.PiecesTile` | pkg/dsl/lexer/lexer.go:35-154 | The pieces consumed by successive tokens, joined, are the whole text; none is empty, and each spells its token. |
| `Lexer.Lexer.NextToken` | pkg/dsl/lexer/lexer.go:55-109 | On every byte sequence the lexer object returns the next token and consumes exactly its bytes, without an index out of range; at the end it returns EOF again and again. |
| `Lexer.Lexer.LexIdent` | pkg/dsl/lexer/lexer.go:118-124 | The literal is the longest run of letters, and nothing else is consumed. |
| `Lexer.Lexer.LexSingleLineComment` | pkg/dsl/lexer/lexer.go:127-138 | The literal holds no line feed, carriage return or NUL, and one of these or the end of the text is next. |
| `Lexer.Lexer.LexMultiLineComment` | pkg/dsl/lexer/lexer.go:141-154 | The literal holds no NUL and no closing marks, which come next and are consumed, unless a NUL or the end does. |
| `Lexemes.TextIsLexed` | pkg/dsl/lexer/lexer.go:55-154 | Every text made of words, signs and comments, each written out character by character, lexes to their tokens; blanks and comments leave none. |
| `Lexemes.CommentsDoNotMatter` | pkg/dsl/lexer/lexer.go:127-154 | A schema text with comments between its tokens parses like the text without them, where no two words are kept apart by a comment alone. |
| `Lexemes.OnlyTokensMatter` | pkg/dsl/parser/parser.go:130-139 | Texts with the same tokens, however blanks and comments stand between them, parse alike. |
| `Ast.EntityString` | pkg/dsl/ast/node.go:62-86 | The printing loop yields the text of the entity, on which the round trip is proved. |
| `Ast.RelationString` | pkg/dsl/ast/node.go:99-132 | The same for a relation and its types. |
| `Ast.IdentifierString` | pkg/dsl/ast/node.go:149-161 | The same for an identifier with its dots and `not`. |
| `Ast.ExpressionString` | pkg/dsl/ast/node.go:230-240 | The same for an infix expression, one pair of parentheses for every operator. |
| `Ast.ActionString` | pkg/dsl/ast/node.go:189-200 | The same for an action. |
| `TreeShape.AcceptedExpressionIsWellShaped` | pkg/dsl/parser/parser.go:334-401 | In every accepted expression whose leaves are identifier tokens, each left operand is a left-leaning chain whose right operands are leaves. |
| `TreeShape.InnerParenShape` | pkg/dsl/parser/parser.go:404-435 | The tree built inside parentheses has that shape, and the parser stops in front of a token that is no operator. |
| `Consumed.ExpressionIsConsumed` | pkg/dsl/parser/parser.go:372-401 | The tokens that the parser goes over, without parentheses, are the prefixes, identifiers, dots and operators of the tree from left to right, and the opening parentheses that matter stand where it groups. |
| `Consumed.InnerParenIsConsumed` | pkg/dsl/parser/parser.go:404-435 | The same for an expression inside parentheses. |
| `Consumed.StatementIsConsumed` | pkg/dsl/parser/parser.go:334-350 | The same for the expression of an action, behind which only closing parentheses and one further token are stepped over. |
| `Consumed.UnparenthesisedIsChain` | pkg/dsl/parser/parser.go:388-399 | Tokens without parentheses give the left-leaning chain of the leaves. |
| `Consumed.GroupingDeterminesTheTree` | pkg/dsl/parser/parser.go:372-467 | Well-shaped trees with the same tokens, opening parentheses of right operands included, are the same tree: what is consumed leaves no choice of the tree. |
| `Outline.TextIsItsPieces` | pkg/dsl/parser/parser.go:170-331 | Every text that parses is, token by token, its entity statements and skipped tokens of other kinds; each entity is its relations and actions in the order of the text, with line ends and opening braces between them; and the statements are these, no more and no fewer. |
| `Printed.LexEntity` | pkg/dsl/ast/node.go:62-86 | Lexing the printed text of an entity, whatever follows it, gives the tokens of its names, operators and marks, byte for byte. |
| `Reparse.ParsePrintedInfix` | pkg/dsl/parser/parser.go:372-467 | A printed well-shaped infix expression is parsed back to itself, with the parser on its first closing parenthesis left over. |
| `Reparse.ParsePrintedStatement` | pkg/dsl/parser/parser.go:334-350 | In front of a line break the printed expression is read back whole, and no token of the next line is taken. |
| `Statements.MemberKeys` | pkg/dsl/utils/util.go:30-36 | Equal keys of two members mean the same entity name and the same member name. |
| `Parsed.AcceptedTextIsSound` | pkg/dsl/parser/parser.go:80-331 | For every accepted text the four maps describe exactly the parsed statements, the relational map is the disjoint union of the relation and action maps with the right kinds, and names are distinct. |
| `Reread.PrintedTextIsReadBack` | internal/schema/schema.go:13-50 | Good statements with distinct names, printed and joined, are parsed back as exactly these statements, with the maps that describe them. |
| `Reread.DescribedMapsAreEqual` | pkg/dsl/parser/parser.go:80-127 | The reference maps are determined by the set of statements, whatever their order. |
| `Parser.ParseText` | pkg/dsl/parser/parser.go:170-191 | On every text the parser object ends, and its result is that of the grammar. |
| `Parser.Parser.Next` | pkg/dsl/parser/parser.go:130-139 | Comments and blanks are skipped and the two tokens of lookahead move on by one. |
| `Parser.Parser.SetRelationReference` | pkg/dsl/parser/parser.go:94-109 | A relation is added to both maps, or refused when the key is taken in either. |
| `Parser.Parser.SetActionReference` | pkg/dsl/parser/parser.go:112-127 | An action is added to both maps, or refused when the key is taken in either. |
| `Parser.Parser.ParseExpression` | pkg/dsl/parser/parser.go:372-401 | The precedence loop computes the tree and the remaining tokens of the grammar, and ends. |
| `Parser.Parser.ParseInnerParen` | pkg/dsl/parser/parser.go:404-435 | The same for the loop that goes on behind a closing parenthesis. |
| `Parser.Parser.ParseExpressionStatement` | pkg/dsl/parser/parser.go:334-350 | The same, with the closing parentheses behind the expression stepped over. |
| `Parser.Parser.ParseRelationStatement` | pkg/dsl/parser/parser.go:252-302 | Relation, remaining tokens and reference maps are those of the grammar, or it is refused. |
| `Parser.Parser.ParseActionStatement` | pkg/dsl/parser/parser.go:305-331 | The same for an action. |
| `Parser.Parser.ParseEntityStatement` | pkg/dsl/parser/parser.go:204-249 | The same for an entity with its body. |
| `Compiler.Validate` | pkg/dsl/ast/validation.go:11-43 | Accepts exactly the maps that define the user entity, whose relation types are all defined, with at most one direct type for each relation. |
| `Compiler.Compile` | pkg/dsl/compiler/compiler.go:26-101 | The loops over entities, relations and actions give the specified definitions, or the error of the first part that fails. |
| `Resolved.AcceptedIff` | pkg/dsl/compiler/compiler.go:171-194 | A text is accepted if and only if it parses and, in its statements: a user entity is declared; every type names a declared entity and, if it names one, a declared relation of it, with at most one whole entity for each relation; every leaf names a member of its entity, or walks over a relation of it to a name that the whole entity it lists declares (the user entity if it lists none). |
| `Resolved.DefinitionsAreTheStatements` | pkg/dsl/compiler/compiler.go:56-101 | The definitions of an accepted text hold the entities, relations, types and actions of its statements, field by field and in order, and nothing else. |
| `Meaning.CompiledHolds` | pkg/dsl/compiler/compiler.go:104-204 | Compilation keeps the meaning of an expression: under the rules of membership, whatever goals are taken for true, the compiled tree holds if and only if the expression does. |
| `Meaning.ActionMeansItsExpression` | pkg/dsl/compiler/compiler.go:82-98 | In every accepted text, the members of an action are those for whom its expression, as written, holds among the members. |
| `Meaning.RelationMeansItsTuples` | internal/commands/check.go:248-297 | The members of a relation are the subjects of its tuples and the members of the usersets among them. |
| `Meaning.CheckDecidesTheText` | internal/commands/check.go:69-159 | From the text to the check: every error-free answer on an action, at any depth, limit and schedule, is what its expression says of the members, if nothing under `not` holds usersets. |
| `Meaning.ErrorsOfTheText` | internal/commands/check.go:97-116 | With typed walks and written tuples, a check can fail with a missing schema if and only if depth is left and the text does not declare the type, with a missing definition if and only if it declares the type but not the name, and otherwise for want of depth only. |
| `Compiled.CompiledStatementsAreGood` | pkg/dsl/compiler/compiler.go:155-204 | Whatever compiles with validation has only identifier leaves, so it can be printed and read back. |
| `Compiled.UnvalidatedEntity` | pkg/dsl/compiler/compiler.go:155-204 | An entity that compiles with validation compiles to the same definition without, under any reference maps. |
| `SchemaService.WriteSchema` | internal/services/schemaService.go:50-85 | Rows are produced exactly for accepted texts: one for each entity, holding its name and its printed text. |
| `SchemaService.UserEntityIsAccepted` | internal/services/schemaService.go:54-66 | The smallest accepted text: the printed user entity without members parses, compiles with validation and gives that entity back. |
| `SchemaService.StoredEntityIsReadBack` | internal/repositories/memory/schemaReader.go:55-79 | Each stored entity text of an accepted schema is parsed back to the same statement and compiled to the same definition. |
| `SchemaService.StoredSchemaIsReadBack` | internal/repositories/memory/schemaReader.go:32-52 | The stored texts joined in any order, parsed and compiled with validation, give the schema that was written. |
| `SchemaService.AcceptedSchemaIsWellTyped` | pkg/dsl/ast/validation.go:11-43 | Every accepted text compiles to definitions whose types, computed names and walked relations are defined, and so is what a walk computes, by the whole entity that the walked relation lists. |
| `SchemaService.WalkIsKnown` | pkg/dsl/compiler/compiler.go:183-194 | The whole entity that a walked relation lists defines the name the walk computes; the user entity does if it lists none. |
| `SchemaService.AcceptedNamesAreClean` | internal/keys/command.go:27-30 | Entity and relation names of an accepted text hold no separator of a cache key. |
| `Typing.NeverStuckIff` | internal/commands/check.go:97-139 | On a validated schema and for every limit of at least 2, depth is the only error of every check over every accepted store, if and only if every type a walked relation can hold defines the computed name. |
| `Typing.TypedWalksNeverStick` | internal/commands/check.go:97-139 | The if-direction for every limit. |
| `Typing.DirectWalksNeverStick` | pkg/dsl/compiler/compiler.go:183-194 | A validated schema whose walked relations list direct types only never gets stuck, with nothing assumed of the computed names. |
| `Typing.UnknownNamesFail` | internal/commands/check.go:97-116 | Which errors a request for something undefined can have, exactly: depth before all, then the type, then the name, or an interruption. |
| `Typing.ErrorsBlameTheRequest` | internal/commands/check.go:97-139 | Where walks are typed, an error for a missing type or name is about the request itself, in both directions; children of a kind unknown to the engine never occur. |
| `Typing.UntypedWalkGetsStuck` | pkg/dsl/compiler/compiler.go:186-193 | The failing input otherwise, for every depth and limit from 2 on: one accepted tuple on which a check can fail with a missing definition. |
| `GapSchema.AcceptedTextHasGaps` | pkg/dsl/compiler/compiler.go:186-193 | A schema text (`relation parent @doc @group#member`, `action view = parent.view`, `action ban = not parent`) that is accepted, on which a check can get stuck and `not` is not complement. |
| `RelationshipService.WriteRelationships` | internal/services/relationshipService.go:52-118 | All tuples are checked and handed on with the fields given, an empty relation of a subject that is no user being replaced by the ellipsis; or none, with the error of the first that fails. |
| `RelationshipService.NormalizedIsHandedOn` | internal/services/relationshipService.go:70-74 | Those fields leave no choice: a tuple is the one handed on if and only if entity, relation, subject type and id are those given, and the subject relation is, unless it was empty and the subject is no user. |
| `RelationshipService.AllowedTypes` | internal/services/relationshipService.go:92-101 | Lists the text `type` or `type#relation` of every type of the relation, in order. |
| `RelationshipService.ValidateSubjectType` | pkg/tuple/tuple.go:64-82 | Accepts exactly when the subject's type text is listed. |
| `RelationshipService.CheckAcceptsIff` | internal/services/relationshipService.go:69-112 | On a validated schema the comparison of texts accepts a tuple, as it is given, if and only if its relation is defined and lists the type of its subject, and it does not relate a userset to itself. |
| `RelationshipService.RefusedFor` | internal/services/relationshipService.go:80-112 | Which error a refused tuple gets, told from the tuple as it is given. |
| `RelationshipService.CheckNeverGetsStuck` | internal/services/relationshipService.go:52-118 | From schema text and written tuples to the check: when walks are typed, a check of a defined name fails for no reason but depth. |
| `RelationshipService.DirectCheckNeverGetsStuck` | internal/services/relationshipService.go:52-118 | The same for every accepted text whose walked relations list direct types only. |
| `Snapshots.SelectionIsStable` | internal/repositories/postgres/utils/common.go:15-26 | In every run of overlapping transactions, the rows selected for a committed token are those its transaction left behind, then and at every later moment. |
| `Snapshots.SettledSelectsView` | internal/repositories/postgres/utils/common.go:15-26 | The three conditions of the query select exactly the live rows of the transaction's snapshot, without those it expired, and with those it created. |
| `Snapshots.TokenSeesItsOwnWrites` | internal/repositories/postgres/relationshipWriter.go:45-199 | A token shows every tuple its transaction wrote and no row it expired. |
| `Snapshots.OldTokensStillSeeDeletedTuples` | internal/repositories/postgres/relationshipWriter.go:45-199 | A write and then a delete as a run: the token of the write shows the tuple before and after the delete, the token of the delete does not. |
| `Snapshots.StepKeepsInv` | internal/repositories/postgres/relationshipWriter.go:53-195 | Every begin, id assignment, insert, expiry, commit or abort keeps each snapshot in step with the committed rows. |
| `MemoryStore.RelationTuples.ID` | internal/repositories/memory/utils/common.go:17-26 | Ids start at 1, and the counter moves past the id given. |
| `MemoryStore.RelationTuples.WriteRelationships` | internal/repositories/memory/relationshipWriter.go:35-65 | Rows and counter after the batch are those of writing its tuples one by one. |
| `MemoryStore.WriteGivesNewIds` | internal/repositories/memory/relationshipWriter.go:45-61 | A batch adds exactly its tuples, each under an id larger than all before; other rows keep theirs. |
| `MemoryStore.IdsGrowAlongTheBatch` | internal/repositories/memory/relationshipWriter.go:45-61 | Ids grow along the batch; of a tuple written twice the last write counts. |
| `MemoryStore.FullFilterSelectsOne` | internal/repositories/memory/utils/filter.go:12-34 | The filter that names all fields of a tuple, none of them empty, selects this tuple and no other. |
| `MemoryStore.OneFieldFilters` | internal/repositories/memory/utils/filter.go:18-30 | A filter that names one field selects by that field of the tuple alone. |
| `MemoryStore.FieldsSelectTogether` | internal/repositories/memory/utils/filter.go:18-32 | A filter selects what each of its fields selects; the empty one selects everything (`NoFilterSelectsAll`). |
| `MemoryStore.RelationTuples.QueryRelationships` | internal/repositories/memory/relationshipReader.go:38-62 | Exactly the stored tuples that the filter selects, each once. |
| `Filters.DirectFilterSelects` | internal/commands/check.go:248-257 | The filter built for a relation check selects exactly the tuples of that entity and relation. |
| `Filters.SelectedIsQueried` | internal/commands/check.go:248-315 | The subjects of what the store selects for it are exactly those that the check engine queries. |
| `MemoryStore.RelationTuples.DeleteRelationships` | internal/repositories/memory/relationshipWriter.go:68-94 | Exactly the rows that match the filter go. |
| `MemoryStore.RelationTuples.Collect` | internal/repositories/memory/relationshipReader.go:87-99 | All matching rows and no others, in the order of their ids. |
| `MemoryStore.CutPage` | internal/repositories/memory/relationshipReader.go:101-115 | The loop returns the first `size` rows from the lower bound on, and the id of the next row if there is one. |
| `MemoryStore.RelationTuples.ReadRelationships` | internal/repositories/memory/relationshipReader.go:65-116 | The page and the next id are cut from the sorted listing of all matching rows. |
| `MemoryStore.WalkReturnsEveryLastingRow` | internal/repositories/memory/relationshipReader.go:65-116 | Over a whole page walk with any writes and deletes in between: ids strictly increase, everything returned matched and was stored, and every matching row stored throughout is returned exactly once. |
| `MemoryStore.QuietWalkIsTheListing` | internal/repositories/memory/relationshipReader.go:65-116 | Without changes in between, the pages joined are the full sorted result. |
| `MemoryStore.QuietWalksEnd` | internal/repositories/memory/relationshipReader.go:101-115 | With pages of at least one row and no changes in between, a walk ends: all pages before the last hold together fewer rows than match. |
| `MemoryStore.EmptyPagesNeverEnd` | internal/repositories/memory/relationshipReader.go:101-115 | With a page size of 0 every page of a walk over a matching row is empty and names a next one. |
| `MemoryStore.RelationTuples.GetUniqueEntityIDsByEntityType` | internal/repositories/memory/relationshipReader.go:119-139 | The ids of exactly the stored entities of the type, each once. |
| `MemoryStore.RemoveDuplicate` | internal/repositories/memory/relationshipReader.go:147-157 | The items in the order of their first occurrence. |
| `MemoryStore.DistinctIsTheSet` | internal/repositories/memory/relationshipReader.go:147-157 | First occurrences hold every item once and nothing else. |
| `MemoryStore.FirstOccurrencesKeepOrder` | internal/repositories/memory/relationshipReader.go:147-157 | Items stand in the order in which they first occur. |
| `TupleText.TupleTextRoundTripIff` | pkg/tuple/tuple.go:41-177 | A printed tuple parses back to itself if and only if its fields are free of the separators and of white space where the parser trims, and a user subject names no relation. |
| `TupleText.ParsedTupleIsClean` | pkg/tuple/tuple.go:117-177 | Every accepted text gives a tuple with such fields. |
| `LookupSchema.CompiledMeansTheExpression` | internal/commands/lookupSchema.go:89-221 | Whatever compiles, with or without validation, is decided in every arrival order as the boolean value of the source expression, with its `not` leaves. |
| `LookupSchema.LookupOfStoredEntity` | internal/commands/lookupSchema.go:28-69 | From end to end, for every entity of an accepted text, printed, stored, read back and compiled: LookupSchema cannot fail and decides each action of the text by the value of its expression. |
| `LookupSchema.Execute` | internal/commands/lookupSchema.go:28-69 | Returns each action at most once, exactly those whose lookup allows, or fails when a lookup fails. |
| `LookupSchema.LookupNode` | internal/commands/lookupSchema.go:107-159 | The decision of a rewrite or leaf is one of the specified outcomes. |
| `LookupSchema.SchemaLookupUnion` | internal/commands/lookupSchema.go:162-190 | The first decision that is not negative, negative if there is none, positive without children. |
| `LookupSchema.SchemaLookupIntersection` | internal/commands/lookupSchema.go:193-221 | The first decision that is not positive, positive if there is none. |
| `LookupEntity.LookupEntityIsExact` | internal/commands/lookupEntity.go:32-176 | Under every schedule, with any sound cache and over a store plain under `not`, when LookupEntity returns, its answer is exactly the stored entities of the type of which the subject is a member, each once. |
| `LookupEntity.LookupEntityFilters` | internal/commands/lookupEntity.go:32-176 | For any schema, without cache: the answer is exactly the listed ids whose check is ALLOWED. |
| `LookupEntity.ReturnsUnlessACheckFails` | internal/commands/lookupEntity.go:113-153 | A run that can take no further step has returned if and only if no check failed in it. |
| `LookupEntity.AlwaysReturnsIff` | internal/commands/lookupEntity.go:32-153 | Every run that goes on as long as it can returns, if and only if no check of a listed id has a failing outcome. |
| `LookupEntity.SometimesReturnsIff` | internal/commands/lookupEntity.go:32-153 | Some run returns if and only if the check of every listed id has an error-free outcome. |
| `LookupEntity.UndefinedPermissionHangs` | internal/commands/lookupEntity.go:32-153 | With a stored entity of the type and a permission the type does not define, no run returns. |
| `LookupEntity.StepsLowerTheMeasure` | internal/commands/lookupEntity.go:113-176 | Every step of launcher, checks and drain loop lowers a measure, so every run ends. |

## Left out

- Expand (internal/commands/expand.go): it replaces nested children by the direct leaf and has no depth bound, so it does not agree with check.
- Error codes and texts: parser and compiler errors are one `None`; the two codes for undefined child kinds and types are one error; a failing reader and a cancelled caller are one error, `Interrupted`.
- Line and column positions, and keyword tokens that carry no information in the syntax tree.
- Response metadata: check counts, tracing spans, counters, the default snap token and schema version.
- Negative depths: depth is a natural number (requests are validated to at least 3), as is the remaining depth.
- Concurrency inside the class `CheckCommands.CheckCommand`: its methods evaluate children one after the other, in any order the limit allows, without interruptions; the interleavings are in `Check`, `Scheduling` and `Protocol`.
- Requests, tuples and scopes whose fields hold separators of the cache key: the class and the cache runs are for fields free of them, as the patterns in proto/base/v1/tuple.proto:10-65 and proto/base/v1/service.proto:98-102 demand of names, ids and tenants.
- Tuples that change under a snap token: `Cache.Database` fixes schema and tuples for each scope. The in-memory reader ignores the token (internal/repositories/memory/relationshipReader.go:38 and 65), so there the cache theorems hold only while nothing is written.
- Concurrency limits below 1, for which a combiner could start no child. With readers that fail or callers that cancel (`interruptible`), outcome sets are upper bounds; the exact result sets are for runs without them.
- Hash and cache libraries: the hash of a key text is taken to be injective, and the cache is a map that may forget any entry.
- The update of the caller's tuple in RelationshipService.WriteRelationships (internal/services/relationshipService.go:70-74): tuples are values, so the in-place change of `subject.Relation` is not visible to the caller.
- Tenants in the in-memory store: one tenant; reads through `LowerBound` are not bounded to a tenant, so the paging theorems do not carry over to several.
- Index choice in the in-memory store (`GetIndexNameAndArgsByFilters`): an index is a way to the same filtered rows.
- 64-bit wrap-around of row and transaction ids, and tokens that do not decode.
- Postgres: SQL execution, retry loops, unique constraints and HeadSnapshot; a transaction is the steps begin, id assignment, inserts, expiries, commit or abort, and an expiry of a row that another transaction has changed or is changing fails.
- Errors of the store in LookupEntity before the first check, and its streaming form.
- Token byte encodings (section 4 of RFC 4648), gRPC and HTTP servers, authentication, configuration, CLI and the visualiser.

# Verified model of the pgrls access engine

pgrls answers, for every role, table and command of a Postgres database, which rows the role can
reach. This project models the parts of it whose correctness is not visible in any one function,
and proves what they promise. Everything is stated for all inputs; where the code does not keep a
promise in general, the exact condition under which it does is proved, with an input that breaks it.

The project has no dependencies. `dafny verify dfyconfig.toml` checks all of it.

## What is modelled

**The access matrix** (`src/pgrls/access.py`). A policy clause is an expression tree evaluated in
SQL's three-valued logic over one row (`Predicate`), and a cell means a set of rows: open is every
row, denied none, conditional the rows its filter is TRUE on, undecided any set.

- `Privileges` computes INHERIT closures by the sweep the code uses and compares privilege paths
  with Postgres's rule. `CellFor` is the direct verdict, compared with the row-security rule of the
  PostgreSQL 16 documentation, section 5.8 "Row Security Policies".
- `Dependence` is the non-interference check behind merging two equal filters; `Merge` folds doors
  into a cell and is shown to be a join on verdicts and row sets.
- `Hierarchy` and `Context` hold the table hierarchy, the TRUNCATE ... CASCADE closure and the memo
  object; `TruncateBlocker` is the greedy search for a foreign key that stops a TRUNCATE.
- `ViewDoors` walks views; `OwnerDoors` turns a body that runs as its owner into doors and writes;
  `DoorRows` shows which rows the doors of both stand for.
- `Reach` is one round of the fixed-point loop; `ReachFixpoint` shows that where it ends is the
  least fixed point, and `ReachDerivation` that finite derivations reach the same. `ReachRounds`
  bounds its rounds, `ReachTermination` says exactly when it ends, `Ancestry` computes the ancestor
  lists on which that turns, and `Endless` has a role for which it never does.
- `ReachMeaning` gives the cells rows, and `RoleRows` joins everything: from policies, views and
  bodies to the final matrix. `MissingGraph` is the same for a role whose memberships were not
  captured, as far as its own reach goes: an upper bound whatever the graph turns out to be.

**PL/pgSQL text** (`src/pgrls/access.py`, `go/pgrlstest/idents.go`). `Lexer` is the tokenizer with
its loops, `LexerSpec` its specification against grammars of its own (PostgreSQL 16 documentation,
section 4.1 "Lexical Structure"), `Quoting` the identifier quoter that the tokenizer reads back.
`Declarations`, `TypeEdits`, `Splice`, `Probes` and `ConfirmedParse` are the rewriting of a body
before it is parsed: finding DECLARE sections, editing types, inserting probe declarations.
`Relex` and `ProbeTokens` show that the probed text still reads as the body's own tokens.

**The test client** (`go/pgrlstest/client.go`, `assertions.go`). `Postgres` is the session: role,
claims setting, data, savepoint stack, aborted flag, behind a wire on which any call may be lost or
lose its answer. `Client` interprets nested test programs against it, and its class issues the
calls one by one.

**Configuration and generation** (`src/pgrls/config.py`, `src/pgrls/generate.py`). `Config` is the
`extends` resolver and its recursive merge; `Generate` plans row security and is composed with
`CellFor`.

`Prelude` holds optional values, sets of elements, flat maps and iteration.

## What the proofs found

- Without a captured membership graph the verdict is not always an upper bound. It fails in exactly
  two families: an unforced table whose owner the role may turn out to inherit, and a denial at
  `src/pgrls/access.py:470-471` that comes before the undecidable policies are looked at
  (`CellFor.MissingGraphExact`; `CellFor.UnseenOwnerLosesRows` and `CellFor.TooSoonLosesRows` have
  an input for each). Where neither occurs the bound holds through views and functions as well
  (`MissingGraph.BaseBoundsRows`). The writes the loop starts from are not such a bound: one whose
  privilege could not be told is not issued (`MissingGraph.WritesMissed`).
- The fixed-point loop compares notes as well as verdicts, so growth of verdicts and writes, which
  its docstring gives as the reason it ends (`src/pgrls/access.py:2060-2061`), is not enough. It
  ends from every start if and only if no table is its own ancestor in the combined lists
  (`ReachTermination.SettlesIffAcyclic`), and then within a bound (`ReachTermination.AcyclicSettles`).
  Each kind of cycle alone is caught at `src/pgrls/access.py:1905-1910`; the lists make a cycle
  exactly when climbing by both kinds in turn comes round past tables that neither check refuses
  (`Ancestry.CyclicExact`). A partition of the table that inherits from it, with one grant of SELECT
  and the same policy on both, is a database on which the loop never ends (`Endless.PairNeverSettles`).
- `_dependence` judges two kinds of node by name against their nature: `CURRENT_SCHEMA`, and an
  unseen function called `has_..._privilege` (`Dependence.LeafFlagsExact`).
- The TRUNCATE blocker is right for all foreign keys if and only if the first table it would take
  above any table lies beneath every other it could take (`TruncateBlocker.BlockerExact`). With one
  parent per table it does; where a table lies beneath two side by side it does not, as
  `README.md:494` of the repository concedes.
- A role switch that returns nil is sure to have restored the claims if and only if some were in
  force before it or it set some itself (`Client.ClaimsGuardExact`). Otherwise a nested switch whose
  restore was lost on the wire, its error swallowed, leaves its own in force, although the comment
  at `go/pgrlstest/client.go:347-349` says the setting was never touched.
- Probes keep the body's tokens except exactly when a DECLARE runs straight into a quoted name, as
  in `DECLARE"x" int;`, which Postgres accepts (`ProbeTokens.DeclareCanTouch`).
- `_deep_merge` is associative exactly when no plain value in the middle config hides a table that
  the last config does not already contain.

## Model

| member | source | states |
|---|---|---|
| Predicate.FlattenOrMeaning | src/pgrls/ast_utils.py:103-130 | flattening a nested OR keeps the clause's three-valued value on every row, and no disjunct left is itself an OR |
| Predicate.OpenClausePassesEverything | src/pgrls/access.py:331-342 | a clause with a literal true among its disjuncts is TRUE on every row for every principal |
| Predicate.EvalAndYes | src/pgrls/access.py:484-486 | a conjunction is TRUE exactly where every part is |
| Predicate.EvalOrYes | src/pgrls/access.py:484-486 | a disjunction is TRUE exactly where some part is |
| Dependence.WalkSound | src/pgrls/access.py:1965-1988 | non-interference: two evaluations that agree on what the flags record agree on the value |
| Dependence.DependenceSound | src/pgrls/access.py:1939-2003 | no session flag means any two users and readers get the same value; no relation flag means any two readers do |
| Dependence.LeafFlagsExact | src/pgrls/access.py:1975-1986 | for one node the flags are right if and only if it is not CURRENT_SCHEMA and not an unseen has_..._privilege call |
| Privileges.InheritClosure | src/pgrls/verify.py:1610-1618 | the sweeping loop ends with exactly the roles some chain of INHERIT edges reaches from the seed, on cyclic graphs too |
| Privileges.OpenSession | src/pgrls/access.py:581-590 | a session holds the roles it inherits, satisfies the targets of itself and PUBLIC, and knows whether that is complete |
| Privileges.HeldIsInherited | src/pgrls/access.py:284-291 | held roles and policy targets are what the graph says, PUBLIC being a member of nothing |
| Privileges.PathsExact | src/pgrls/access.py:233-271 | with the graph captured some path exists exactly when Postgres grants the privilege, and an owner path exactly when the owner's rights are held |
| Privileges.PathsSoundWithoutGraph | src/pgrls/access.py:242-271 | a path found without the graph is real under every completion of it |
| Privileges.CallExact | src/pgrls/access.py:1678-1688 | with the graph captured a function is called exactly when Postgres lets the role execute it: granted to all, to an inherited role, or owned by one |
| Privileges.CallWithoutGraph | src/pgrls/access.py:1678-1696 | without it a call is allowed under every completion, and some completion allows one exactly when it is found or reported as undecided |
| CellFor.NamedVerdict | src/pgrls/access.py:451-452 | with unique policy names, the verdict kept under a name is that policy's own |
| CellFor.AppliesIsBinds | src/pgrls/access.py:310-327 | with the graph captured a policy applies exactly when Postgres binds the role by it |
| CellFor.AssembledFilter | src/pgrls/access.py:476-486 | the joined filter is TRUE exactly where some permissive clause and every restrictive clause is, dropped always-true floors included |
| CellFor.ClausesExact | src/pgrls/access.py:294-307 | the clauses the verdict looks at are exactly the binding policies' clauses for the command |
| CellFor.PolicyCellExact | src/pgrls/access.py:451-486 | the verdict the policies assemble commits, and at every row equals Postgres's policy rule |
| CellFor.BranchesExact | src/pgrls/access.py:409-449 | the branches before the policies are Postgres's own: no privilege or a blocked TRUNCATE denies, every bypass opens |
| CellFor.CellExact | src/pgrls/access.py:397-486 | with the graph captured the verdict is exact at every row: privilege and (bypass or policies), and for TRUNCATE nothing that stops it |
| CellFor.CellDescribesRows | src/pgrls/access.py:397-486 | the same in the terms doors are folded in: the cell describes the admitted rows |
| CellFor.TruncateExact | src/pgrls/access.py:422-438 | the TRUNCATE verdict with the blocker search: open only if some statement the role may run empties the table, exactly then where the first candidate is always the least, otherwise denied and never undecided |
| CellFor.MissingGraphExact | src/pgrls/access.py:397-486 | without the graph the verdict bounds every completion if and only if neither the unseen-owner nor the unplaced-policy escape exists, TRUNCATE with its blocker search included |
| CellFor.MissingGraphBlocks | src/pgrls/access.py:373-394 | without the graph the blocker search never settles on a block |
| CellFor.PolicyCellAllows | src/pgrls/access.py:462-486 | what the policies assemble allows a row exactly when those seen pass it or the verdict says that others might |
| CellFor.MissingGraphBounds | src/pgrls/access.py:409-486 | on a FORCE'd table and row commands every row reached under some completion is allowed, unless the denial came too soon |
| CellFor.DeniesTooSoonLosesRows | src/pgrls/access.py:470-477 | whenever it denies too soon, every row an unplaced policy admits, restrictive policies included, is reached under some completion |
| CellFor.UnseenOwnerLosesRows | src/pgrls/access.py:445-449 | an unforced table denied to a role that one unseen membership lets read every row |
| CellFor.TooSoonLosesRows | src/pgrls/access.py:470-477 | a table denied for UPDATE, its one policy for the role having no USING, to a role that one unseen membership lets update every row |
| Merge.MergeJoins | src/pgrls/access.py:2006-2036 | merging two cells is the join of their grades: verdict, filter and what the filter depends on |
| Merge.JoinLaws | src/pgrls/access.py:2006-2036 | that join is commutative, associative, idempotent and monotone |
| Merge.FoldIsLub | src/pgrls/access.py:2039-2044 | the folded cell's grade is the least one above the cell and all its doors |
| Merge.FoldIgnoresOrder | src/pgrls/access.py:2039-2044 | neither the order nor the repetition of doors changes what the fold concludes |
| Merge.FoldDenied | src/pgrls/access.py:2039-2044 | a folded cell is denied exactly when the cell and every door is |
| Merge.MergeDescribesUnion | src/pgrls/access.py:2006-2036 | if two cells describe two row sets their merge describes the union |
| Merge.FoldIsUnion | src/pgrls/access.py:2039-2044 | a fold that commits is exactly the union of the rows of the cell and of every door |
| Hierarchy.DescendantsExact | src/pgrls/access.py:603-617 | the worklist lists, once each, exactly what lies beneath the table, without the table, on cyclic graphs too |
| Hierarchy.CascadeIsLeastClosed | src/pgrls/access.py:619-638 | TRUNCATE ... CASCADE empties the least set with the table that is closed under children and references |
| Context.Context.constructor | src/pgrls/access.py:560-561 | a new context has an empty memo |
| Context.Context.Descendants | src/pgrls/access.py:603-617 | the memoised lookup returns what the walk returns and remembers it; the memo never changes an answer |
| Context.Context.Keep | src/pgrls/access.py:629-633 | a table and its subtree are appended where new, and queued |
| Context.Context.TruncateCascade | src/pgrls/access.py:619-638 | the loop over the stack returns the cascade without the table, keeping the memo right |
| Context.CascadeWithoutTable | src/pgrls/access.py:619-638 | what is returned is the least closed set minus the table |
| TruncateBlocker.ClearMeansValid | src/pgrls/access.py:357-394 | if nothing blocks there is a statement the role may run, and it empties exactly what the walk emptied |
| TruncateBlocker.BlockerExact | src/pgrls/access.py:357-394 | the walk is right for every set of foreign keys and every table the role may name if and only if the first candidate is always the least |
| TruncateBlocker.LeastIsRight | src/pgrls/access.py:357-394 | there nothing blocks exactly when some valid statement empties the table, and what is emptied is the least possible |
| TruncateBlocker.ForestFirstIsLeast | src/pgrls/access.py:390-393 | with one parent per table the first candidate is always the least |
| TruncateBlocker.SideParentMisleads | src/pgrls/access.py:390-393 | beneath two truncatable parents of which the first is not beneath the second, some foreign keys make the walk wrong |
| TruncateBlocker.DiamondMisleads | src/pgrls/access.py:390-393 | so it is in every diamond |
| TruncateBlocker.Cover | src/pgrls/access.py:386-393 | one referencing table is settled as the walk settles it: already emptied, covered, or the blocker |
| TruncateBlocker.ReadReferences | src/pgrls/access.py:385-393 | so is every reference of one emptied table |
| TruncateBlocker.FindBlocker | src/pgrls/access.py:357-394 | the worklist run over the shared context returns the walk's outcome |
| ViewDoors.EraseLoops | src/pgrls/access.py:740-772 | any permitted walk of views can be cut to a simple one with the same ends |
| ViewDoors.SimplePathsSuffice | src/pgrls/access.py:740-772 | from one view a door is recorded if and only if a permitted walk of any length leads to it, on cyclic view graphs too |
| ViewDoors.KnownGraphDecides | src/pgrls/access.py:740-760 | with the graph captured and no materialized views to be read every hop has an answer |
| ViewDoors.SearchExact | src/pgrls/access.py:668-816 | with every question decided, reads and writes alike, the doors returned for a table are exactly those some permitted walk reaches from a view that takes the command and that the principal may open |
| ViewDoors.RecordLeads | src/pgrls/access.py:725-816 | with questions open too, whatever is recorded and not undecided is the cell some permitted walk leads to |
| ViewDoors.LeadsIsRecorded | src/pgrls/access.py:725-816 | and every cell a permitted walk leads to is recorded, unless it is a denial |
| ViewDoors.LeadsIsCovered | src/pgrls/access.py:708-785 | with questions open, every table that some way of answering them leads to is recorded, undecided or with the cell of the view that names it |
| ViewDoors.Search.MarkBeneath | src/pgrls/access.py:708-724 | every table beneath an undecidable view gets an undecided door, once per path |
| ViewDoors.Search.VisitTable | src/pgrls/access.py:773-785 | what is recorded and issued at a table a view names |
| ViewDoors.Search.Visit | src/pgrls/access.py:740-785 | the recursive walk records and issues exactly its events, and ends |
| ViewDoors.Search.VisitRef | src/pgrls/access.py:744-785 | one referenced relation: seen, materialized, unreadable, unknown, a view or a table |
| ViewDoors.Search.Start | src/pgrls/access.py:787-815 | the gates a starting view must pass for reads and for writes |
| ViewDoors.Search.Run | src/pgrls/access.py:787-816 | the loop over starting views collects every event in order |
| OwnerDoors.TruncateReachExact | src/pgrls/access.py:1626-1637 | the TRUNCATE a body runs touches exactly the subtree, or with CASCADE the least closed set |
| OwnerDoors.CreditsOwnersReach | src/pgrls/access.py:1638-1661 | a table is credited exactly when the body touches it and the owner's verdict is no denial, or touches a view from which the owner's walk records it; a write is issued exactly when the owner holds the privilege there or on the way |
| OwnerDoors.RunAsOwnerWellFormed | src/pgrls/access.py:1595-1662 | every credited door reaches rows, and a filtered one carries its filter |
| DoorRows.DirectExact | src/pgrls/access.py:397-486 | a session's direct verdict says at every row whether Postgres lets the session reach it; for TRUNCATE, the first candidate being always the least, whether some statement it may run empties the table |
| DoorRows.ViewDoorsMean | src/pgrls/access.py:725-785 | the doors of a view walk stand for exactly the rows Postgres lets the effective user of some view on a permitted walk reach |
| DoorRows.SpotMeans | src/pgrls/access.py:1638-1661 | the doors a body opens by one touch stand for exactly the rows its owner reaches, directly or through the view |
| DoorRows.BodyDoorsMean | src/pgrls/access.py:1595-1662 | all doors of a body together stand for exactly the rows its statements reach as its owner |
| ReachFixpoint.StepMonotone | src/pgrls/access.py:2097-2107 | a round computed from more claims more, over all four door rules |
| ReachFixpoint.RoundsStayBelow | src/pgrls/access.py:2097-2111 | no round claims more than any state the rules cannot enlarge |
| ReachFixpoint.SettlesOneLevel | src/pgrls/access.py:1913-1930 | once verdicts and writes stand still, a round settles the notes of one more level of the hierarchy |
| ReachFixpoint.RoleReach | src/pgrls/access.py:2092-2111 | the loop ends exactly when a round changes nothing and returns the least fixed point |
| ReachRounds.ReachSettles | src/pgrls/access.py:2092-2111 | no later than there are cells and writes that could be found, some round reaches and issues nothing new |
| ReachRounds.SameReachStays | src/pgrls/access.py:2097-2107 | rounds computed from states that reach and issue the same reach and issue the same |
| ReachRounds.DepthBound | src/pgrls/access.py:2092-2111 | once a round reaches and issues nothing new, the loop stops after at most one more round for each level of the hierarchy and one |
| ReachRounds.LayeredSettles | src/pgrls/access.py:2092-2111 | so on every acyclic hierarchy it stops by the number of facts there could be and the depth |
| ReachTermination.AcyclicIsLayered | src/pgrls/access.py:1900-1910 | without a cycle every table has a level above its ancestors', none above the number of tables |
| ReachTermination.AcyclicSettles | src/pgrls/access.py:2092-2111 | without a cycle the loop stops from every start within a bound read off the schema |
| ReachTermination.CycleMoves | src/pgrls/access.py:1913-1930 | where a cycle of tables is read, all that is read has one filter and nothing is issued, a round leaves it so and the longest note on the cycle grows |
| ReachTermination.CycleNeverSettles | src/pgrls/access.py:2092-2111 | from every such start, whatever else is denied, the loop never ends |
| ReachTermination.SettlesIffAcyclic | src/pgrls/access.py:2067-2111 | the loop ends from every start that has a cell for each table and command if and only if no table is its own ancestor |
| Ancestry.ChainExact | src/pgrls/model.py:1889-1927 | the partition chain is refused exactly when climbing meets a table above itself, and otherwise lists exactly the captured tables above |
| Ancestry.WalkExact | src/pgrls/model.py:1929-1989 | so does the depth-first walk over inheritance, whatever is on the path or finished |
| Ancestry.ListedExact | src/pgrls/access.py:1900-1910 | a table is in the combined list exactly when it was captured and lies above by its kind, neither kind looping |
| Ancestry.CyclicExact | src/pgrls/access.py:1900-1910 | the combined lists make a cycle exactly when climbing by either kind in turn comes round past tables that neither walk refuses |
| Ancestry.TakesBothKinds | src/pgrls/access.py:1905-1910 | partitions alone, or classic inheritance alone, never come round |
| Ancestry.ParentsDecideSettling | src/pgrls/access.py:1900-2111 | whether the loop ends from every start, in terms of the recorded parents alone |
| Ancestry.MixedPairIsCyclic | src/pgrls/access.py:1900-1910 | a partition of the table that inherits from it gets past both cycle checks |
| Endless.ReadsNeverSettle | src/pgrls/access.py:2047-2111 | for a role that reads every table under one filter and does nothing else the loop never ends on any hierarchy whose lists make a cycle |
| Endless.PairNeverSettles | src/pgrls/access.py:2047-2111 | a whole database with two tables, computed from its policies and parents, whose own start never lets the loop end |
| ReachDerivation.FiresOnSomeFact | src/pgrls/access.py:1716-1756 | a trigger fires exactly when one of the single facts that make it fire holds |
| ReachDerivation.RowsFollowEdges | src/pgrls/access.py:1759-1930 | some door exists at a cell exactly when one application of a door rule leads there from a fact that holds |
| ReachDerivation.WritesFollowEdges | src/pgrls/access.py:1759-1897 | a write is issued exactly when one application of a rule issues it |
| ReachDerivation.ReachedIffDerivable | src/pgrls/access.py:2092-2111 | where the loop stops a cell is not denied, and a write issued, exactly when a finite derivation from the role's own cells exists |
| ReachMeaning.CellDescribesUnion | src/pgrls/access.py:2107-2107 | a refolded cell describes the base's rows and those of every parent, body and action |
| ReachMeaning.FinalCellsMeanRows | src/pgrls/access.py:2092-2111 | at the fixed point every committed verdict is exactly the rows reached, which are stated by derivations and not by the computed cells, all the way up the hierarchy |
| RoleRows.BaseDescribesOwnRows | src/pgrls/access.py:2062-2090 | the cell the loop starts from is exactly the rows Postgres lets the role reach directly, through views and by the functions it may execute |
| RoleRows.FinalVerdictsMeanRows | src/pgrls/access.py:2047-2111 | from policies to the final matrix: every committed verdict is exactly the rows that the role, each view's effective user and each body's owner reach under Postgres's rules, counting every trigger and rule that a derivation runs |
| MissingGraph.DirectBounds | src/pgrls/access.py:397-486 | without the graph, a row that any graph lets the session reach lies within its direct verdict, where that does not escape |
| MissingGraph.ViewDoorsBound | src/pgrls/access.py:708-785 | a row that the graph's permitted walks of views reach may be shown by the doors found without it |
| MissingGraph.BodyBound | src/pgrls/access.py:1595-1662 | a row that a body reaches as its owner under the graph may be shown by the doors found without it |
| MissingGraph.BaseBoundsRows | src/pgrls/access.py:2062-2090 | whatever the graph turns out to be, every row the role then reaches directly, through views or by functions lies within the cell computed without it, unless a direct verdict on the way escapes or a function is reported |
| MissingGraph.WritesMissed | src/pgrls/access.py:2067-2073 | the writes that the graph would add to those issued are exactly the ones it grants and whose privilege could not be told without it |
| Lexer.FindCommentEnd | src/pgrls/access.py:873-884 | the depth-counting loop finds the nested comment's end or that it is open |
| Lexer.FindQuoteEnd | src/pgrls/access.py:889-900 | the loop over a quoted text finds its closing quote |
| Lexer.FindWordEnd | src/pgrls/access.py:909-913 | the loop over a word stops where the word does |
| Lexer.Scan | src/pgrls/access.py:866-921 | one position is read as the lexeme that starts there |
| Lexer.Tokenize | src/pgrls/access.py:857-922 | the index loop ends and returns the tokens the grammar functions give |
| LexerSpec.CommentExact | src/pgrls/access.py:873-884 | a comment is closed exactly when a complete nested comment, as a tree, starts there |
| LexerSpec.QuoteExact | src/pgrls/access.py:885-900 | a quote closes at a position exactly when a body of doubled or escaped quotes ends there |
| LexerSpec.FindExact | src/pgrls/access.py:903-905 | a dollar quote ends at the first occurrence of its tag, and is open when there is none |
| LexerSpec.TokenExact | src/pgrls/access.py:864-921 | a token is read at a position exactly when one of an independent grammar stands there: longest word run, closed quote, first closing tag, longest number, single character |
| LexerSpec.SkipExact | src/pgrls/access.py:864-884 | a position is skipped, to where, exactly as whitespace, a line comment or a complete nested comment says |
| LexerSpec.TokensExact | src/pgrls/access.py:857-922 | a text has at most one reading by that grammar and the tokenizer returns it; it fails exactly when some prefix reads up to a string, quoted identifier, dollar quote or comment that is left open |
| Quoting.QuoteRoundTrip | go/pgrlstest/idents.go:133-157 | every accepted name's quoted form reads as one token that spells the name, and only empty or control-character names are refused |
| Quoting.QualifiedReads | go/pgrlstest/idents.go:163-173 | a qualified name reads as identifier, dot, identifier |
| Quoting.QualifiedInjective | go/pgrlstest/idents.go:163-173 | two different schema and name pairs never quote alike |
| Quoting.UndoubleDouble | src/pgrls/access.py:930-932 | reading doubled quotes as one undoes the doubling |
| Declarations.TokensOrdered | src/pgrls/access.py:857-922 | tokens come in order and a quoted identifier holds both its quotes |
| Declarations.ReadSpans | src/pgrls/access.py:960-969 | the inner loop reads one section's declarations and where its BEGIN is |
| Declarations.ReadSections | src/pgrls/access.py:953-971 | the outer loop reads every DECLARE section |
| Declarations.SectionsInOrder | src/pgrls/access.py:936-971 | declarations run from a token to the next semicolon in order without overlap, and so do the places probes go |
| TypeEdits.TargetCovers | src/pgrls/access.py:985-1014 | an edit covers only names and their dots, takes the whole type or leaves exactly its last name, never reaches a default or a column's type, and no qualified type is left |
| TypeEdits.EditInside | src/pgrls/access.py:985-1014 | an edit lies after its declaration's name and before its semicolon |
| TypeEdits.EditsFit | src/pgrls/access.py:974-1015 | the edits are in order, disjoint and inside the body |
| TypeEdits.FindTypeEdits | src/pgrls/access.py:985-1015 | the loops find exactly the edits the declarations call for |
| Splice.ApplyEdits | src/pgrls/access.py:1107-1108 | edits applied one by one from the last backward make the same text as all of them at once |
| Splice.DeletionsUndo | src/pgrls/access.py:1126-1131 | deleting what was inserted gives the text back |
| Probes.ClosedSectionsEnd | src/pgrls/access.py:1119-1121 | every declaration of a closed section ends at a real semicolon before its BEGIN |
| Probes.PlacesAscend | src/pgrls/access.py:1116-1125 | probes are numbered in the order of their places, no two at one place |
| Probes.DeclaredAtMarks | src/pgrls/access.py:1118-1122 | each located declaration starts at its probe's place and runs to the first semicolon after it |
| Probes.PlaceProbes | src/pgrls/access.py:1115-1124 | the loops collect every place and where each declaration of a closed section stands |
| Probes.NamesDistinct | src/pgrls/access.py:1127-1127 | probes of different numbers have different names |
| Probes.InsertProbes | src/pgrls/access.py:1125-1131 | probes are inserted from the last place backward with a line for each, and refused exactly when the body uses one of their names |
| Probes.ProbesStand | src/pgrls/access.py:1130-1131 | every probe stands whole in the probed text, on the line recorded for it |
| Probes.ProbesUndone | src/pgrls/access.py:1125-1131 | deleting the probes gives the body back |
| Relex.SameLexeme | src/pgrls/access.py:864-921 | what a lexeme is depends only on the text from its start on |
| Relex.AgreeLexeme | src/pgrls/access.py:864-921 | a lexeme that ends by a semicolon, whitespace or a comment is the same whatever stands after that |
| ProbeTokens.InsertedReads | src/pgrls/access.py:1131-1131 | a probe before a token that stands apart reads as its own three tokens and moves every later token without changing it |
| ProbeTokens.WordsNeverTouch | src/pgrls/access.py:909-914 | no two word tokens of a text ever touch |
| ProbeTokens.ProbesReadExactly | src/pgrls/access.py:1115-1131 | the probed body reads as its own tokens with each probe's among them, except exactly when a DECLARE runs straight into the name after it |
| ProbeTokens.DeclareCanTouch | src/pgrls/access.py:1115-1131 | a body of one declaration with no space after its DECLARE, whatever the name, does not read back |
| ConfirmedParse.Retype | src/pgrls/access.py:1104-1108 | the rewritten body is the body with all type edits made, or none when it does not tokenize |
| ConfirmedParse.Prepare | src/pgrls/access.py:1104-1131 | what is handed to the parser: the rewritten body, its probes, their lines and the declarations, refused exactly when a text does not tokenize or a name is taken |
| Client.OpenFacts | go/pgrlstest/client.go:211-292 | a switch that is refused has changed nothing but perhaps left a savepoint; one that opens captured the actor and stands on a savepoint of exactly that state |
| Client.BodyKeepsStack | go/pgrlstest/client.go:200-403 | whatever fails on the wire and wherever errors are swallowed, a nested body never disturbs the savepoints below it |
| Client.NilRestores | go/pgrlstest/client.go:294-403 | after a switch returns nil the role and savepoint stack are what they were, the data is what the body left, and the claims are given exactly |
| Client.CleanBodyKeepsActor | go/pgrlstest/client.go:200-403 | on a clean wire every body leaves role and claims alone or the transaction aborted |
| Client.CleanNilRestoresClaims | go/pgrlstest/client.go:310-349 | on a clean wire a switch that returns nil restores the claims unconditionally |
| Client.FailureReverts | go/pgrlstest/client.go:350-370 | when the body fails at any depth and the rollback goes through, role, claims and data are those before, the transaction is usable, and the switch's savepoint stays |
| Client.RejectionLeavesNoTrace | go/pgrlstest/assertions.go:125-169 | an expected rejection that returns nil leaves data, role and claims alone |
| Client.RejectionMeansRejected | go/pgrlstest/assertions.go:136-169 | nil means the statement raised SQLSTATE 42501 as the current actor |
| Client.TransactionLeavesNoTrace | go/pgrlstest/client.go:97-113 | a transaction leaves everything as at BEGIN, and a rollback error never replaces the body's |
| Client.ClaimsCanLeak | go/pgrlstest/client.go:325-349 | from every session without claims, an outer switch given none can return nil with a nested actor's claims still in force |
| Client.ClaimsGuardExact | go/pgrlstest/client.go:325-349 | a role switch restores the claims whatever the body and the wire exactly when some were in force or it is given some |
| Client.TestClient.SwitchRole | go/pgrlstest/client.go:200-403 | the calls one by one have the effect the nested interpretation gives |
| Client.TestClient.OpenSavepoint | go/pgrlstest/client.go:215-292 | capture and savepoint |
| Client.TestClient.SwitchInside | go/pgrlstest/client.go:294-403 | the deferred cleanup, by whether the body succeeded |
| Client.TestClient.SwitchAndRun | go/pgrlstest/client.go:373-403 | set the role, set the claims if given, run the body |
| Client.TestClient.Restore | go/pgrlstest/client.go:297-349 | release, restore the role, restore or clear the claims |
| Client.TestClient.AssertRejected | go/pgrlstest/assertions.go:125-184 | savepoint, statement, rollback or release, and the verdict |
| Client.TestClient.RunBody | go/pgrlstest/client.go:398-402 | nested programs run as their interpretation says |
| Client.TestClient.Transaction | go/pgrlstest/client.go:97-113 | BEGIN, body, always a rollback |
| Config.MergePathwise | src/pgrls/config.py:137-157 | at every path the override's plain value wins, tables merge, and the base shows through the rest |
| Config.AbsorbedWhenSubsumed | src/pgrls/config.py:137-157 | merging onto a config changes it exactly when the base holds something it lacks |
| Config.MergeAssociative | src/pgrls/config.py:137-157 | three configs merge alike either way exactly when the middle one hides no table of the first that the last lacks |
| Config.Read | src/pgrls/config.py:160-219 | the recursive reader with its loop ends and returns the resolution |
| Config.ReadsIffChainsFine | src/pgrls/config.py:160-219 | reading succeeds exactly when every chain of extends is acyclic, within the cap, and leads to readable files |
| Config.ReadIgnoresStack | src/pgrls/config.py:171-174 | a base reached twice along different chains reads the same each time |
| Config.DeclaringFileWins | src/pgrls/config.py:204-219 | a successful read is the ordered merge of the bases with the declaring file's own values on top at every path |
| Generate.MakePlan | src/pgrls/generate.py:376-501 | the loop plans exactly what each table calls for, the helper first under strict binding |
| Generate.PlanIsIdempotent | src/pgrls/generate.py:379-386 | planning again after the plan is applied yields no statements |
| Generate.NeverLiterallyOpen | src/pgrls/generate.py:143-223 | the session predicate is never judged open |
| Generate.GeneratedIsolates | src/pgrls/generate.py:245-330 | on every generated table no row command is open for any session of a plain role, owner included and graph captured or not; it is conditional on exactly the session predicate when the privilege and the target role are seen, undecided only when the missing graph may hide one, else denied |

## Left out

- Clause text: clauses are trees, so the joining of a lone clause without parentheses at `src/pgrls/access.py:484-486`, empty clauses, clauses that do not parse and clauses nested too deep are not modelled.
- Notes: their text is only what the termination proof needs, a value carried along parent edges and grown by merging; the wording and the names listed in them are not.
- Access paths: the column lists, the sorting of policy names, `door_paths` and the untraced doors are not modelled.
- Tracing: which relations a function, trigger or rule body touches is an input (`_trace`, `_statement_touches`, `_body_statements`).
- Parsing: pglast, `_datums`, whether the parser brings the probes back, the rewriting of parameter and return types, and the retry loop over parse errors.
- Ancestors: the combined lists are computed in `Ancestry` from the recorded parents; only `Ancestry` and `Endless` ask that a schema carry these lists, and the other theorems hold for any.
- Reach.Table: a schema's tables, foreign keys, triggers and rules are values; the loops of the four door functions are recursive functions over them, as only their result is used.
- ReachFixpoint.RoleReach: requires that the rounds settle, which is what ending means; ReachTermination.SettlesIffAcyclic says when they do.
- ReachTermination.SettlesIffAcyclic: no trigger fires on SELECT, as in Postgres; a schema value could say otherwise.
- RoleRows.FinalVerdictsMeanRows: which rows a referential action rewrites is an input, because it depends on the data, and so is what tracing finds in a body. A TRUNCATE cell is given its rows only where the blocker search is right for everyone involved, which TruncateBlocker.BlockerExact characterises; elsewhere CellFor.TruncateExact still has that an open verdict is true. Rows behind materialized views are not counted, and their doors are undecided. A body that sets its own parameters leaves its filtered doors undecided.
- MissingGraph.BaseBoundsRows: stops where the loop begins. A write whose privilege could not be told is not issued, so statement triggers and rules on it are not followed, and no bound is stated for the final cells without the graph.
- ViewDoors.SearchExact: what lies behind materialized views has no statement of its own. View owners without a session fall back to the principal, which a well-formed catalog excludes. The starting views come already sorted.
- Lexer.Tokenize: decimal digits are those of Unicode 15.
- Quoting.QuoteRoundTrip: the reserved-word test folds ASCII letters only, where the source folds all of Unicode; no reserved word is affected in a name the tokenizer reads.
- Client: savepoint names are distinct rather than random, so an entropy failure is not modelled; neither are panics, the role named `none`, a BEGIN inside a transaction beyond a warning, a driver that returns no row or a non-string user, `Seed`, `Close`, `FetchAll`, the other assertions and the text of errors.
- Config.Read: paths are already resolved, and reading and parsing TOML are inputs; a malformed file or a missing one is an error case. Building the typed configuration from the merged tables is not modelled.
- Generate.MakePlan: tables come in sorted order and reasons unsorted; nullability notes, explicit tables that match nothing, the check of a column type before it is spliced into a cast, and the check of the auth function's name are not modelled.
- The Z3 provers, introspection, the command line, the renderers, history, coverage and baselines are not modelled.

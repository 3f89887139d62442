# Verified model of the governed data-quality pipeline

A Dafny model of `airflow_dq_agent`: how an untrusted remediation proposal becomes a controlled plan, how the plan is
evaluated, reviewed, approved and admitted, and how `apply_plan` mutates the warehouse under that admission. The model
follows the code branch by branch; where code and documentation disagree it follows the code.

`dafny verify dfyconfig.toml` checks the whole project.

## How the model is laid out

| file | what it covers |
|---|---|
| `Prelude`, `Contracts`, `Sql`, `SqlText`, `BoundText`, `Identifiers`, `Frames` | options and sequences; the governed artifacts; rows, three-valued predicates, joins and ordering; string literals, IN lists and LIKE; the text of a query and what SQLAlchemy takes for a parameter in it; how PostgreSQL reads names with and without quotes; data frames and the column types their operators accept |
| `Actions`, `Renderings`, `CheckPolicies`, `Predicates`, `Samples`, `Dedupe`, `Suites`, `Measures`, `Registries`, `Misfits` | deriving, validating and rendering actions, and what each accepts and renders to; the policy that justifies one; one check compiled three ways, and when its sample shows what apply targets; deduplication; loading and the suite, and what its results say of the frames; the two mutable catalogs; checks that load and make the suite raise |
| `Planning`, `Compilations`, `Agreement`, `Evaluations`, `Scores` | compiling, re-deriving, evaluating and sanitising, that these separately written loops agree, which candidates compile, and what the scores say |
| `Lineage`, `Admissions`, `Journeys`, `Approvals`, `Refusals`, `Authority`, `Closures` | audit events and their chain; review, decision and admission; one run from report to the entry of apply; that what is admitted is what was recorded and reviewed, and what fingerprints, evaluation, admission, entry and recovery let through; the chain over whole executions |
| `Transactions`, `Recoveries`, `Effects`, `Merges`, `Payloads`, `AdmittedRuns` | one apply transaction on its snapshot, the read-only recovery of its record, what its statements do and which rows they file, and what its commit makes of tables that others have changed |
| `Protocol`, `Guarantees`, `Conservations`, `Retries`, `Executor` | any number of concurrent calls as a state machine, its invariant and promises, and `apply_plan` itself as imperative code shown to be one worker of that machine |
| `Decisions`, `Repetitions`, `DryRuns` | several admissions of one decision, and an execution with two; `apply_plan` without mutation, and what it predicts |
| `Spellings`, `Witnesses`, `ReferencedSchemas` | what depends on how checks spell their tables, for plans of the suite; and complete inputs on which conditional promises fail |

Conventions. A fingerprint is a free term over the payload the program hashes, so two are equal exactly when the hashed
payloads are: SHA-256 over canonical JSON is assumed collision free, and nothing else about it is. Payloads that the
program dumps to JSON first enter the term dumped. A function that returns `None`, `Err` or a refusal stands for code that
raises. Times are microseconds. Ids that the program mints with `uuid4` are parameters; the results that need one to be
non-empty or new say so. `plan`, `report` and the other payloads are arbitrary values unless a lemma says where they came from.

The protocol's steps are those of a SERIALIZABLE PostgreSQL transaction: a snapshot at its start, its own writes kept
aside, unique keys held from the record to the end, and a commit that takes effect whole, over whatever others have
committed meanwhile, or aborts because a row it updated has changed. An abort may happen at any running step, so a database
that detects more conflicts only has fewer executions. Crashes before and after
the commit, lost acknowledgements, other database errors, foreign writes to source tables, foreign audit events and new
workers may come at any point, and every worker has its own clock function, which need not even be monotone.

## What the proofs found

* The unique index of the apply log leaves the empty admission id out, and the two lookups treat any blank id as absent.
  At most one commit per admission therefore holds exactly for the ids that are not empty
  (`Guarantees.AtMostOnceExactly`), and a committed result is never read back under a blank id
  (`Retries.BlankIsNeverRecovered`).
* Contracts are looked up by the last segment of a name, frames and the conflict check by the name as it stands, and a
  recorded step carries the contract's own name. A check that reads data can only fail under the plain name, so for plans
  of the suite everything comes down to one condition on the registered checks: recovery gives a committed result back
  exactly when no schema-drift check is spelled with a dot, and refuses it otherwise
  (`Spellings.SuitePlansPlainExactly`, `Spellings.SuiteRecoveryInvertsCommit`). A registry with such a check leads through
  suite, review, approval and admission to a plan that quarantines and fills one table under two spellings, whose effect
  depends on the order of its items, and whose committed result the next call is refused
  (`Witnesses.AdmittedUnderTwoSpellings`, `Witnesses.OrderMatters`, `Witnesses.CommittedAndRefused`). The conflict check
  catches every table that is mutated twice exactly when mutating checks spell one contracted table one way
  (`Spellings.ConflictCheckExactly`).
* The policy snapshot contains the compiled sample of each cited check, and the sample of a referential check names the
  table it joins. So between registries of compiled checks an equal snapshot settles what an orphans item joins, and a retry
  in another process recovers the committed result exactly when the plan spells its tables plainly
  (`Spellings.RegisteredRecoverable`). Only an orphans policy declared on a check of another dimension escapes: two
  registries that keep the referenced table in different schemas then have equal snapshots and accept the same payloads,
  and the result committed under the one is not recoverable under the other (`ReferencedSchemas.SnapshotMissesParent`).
* Sample queries and table reads do not quote their names, apply does. The sample of a check shows the keys that apply
  would target on every database exactly when every name in it is its own lower-case fold and no bare one is a reserved
  word (`Samples.SampleShowsTargetExactly`); a column `user` or `Amount` breaks it (`Samples.ReservedColumnMisleads`,
  `Samples.FoldedColumnMisleads`). Suite and apply read the same rows exactly when every contracted table's qualified name
  is its own fold (`Suites.LoadedContentsExactly`).
* Nothing compares a check with the types of its columns. A suite run ends in a report exactly when every registered check
  fits the loaded columns, and on databases that match their contracts the declared types alone decide
  (`Suites.SuiteReportsExactly`, `Suites.DeclaredTypesDecide`). A text search on a column of numbers, a business key that
  names a column twice and a foreign key that is the primary key all load, and then every suite run raises
  (`Misfits.TextSearchOnNumbers`, `Misfits.RepeatedKey`, `Misfits.KeyIsForeignKey`).
* Rendered SQL is handed to SQLAlchemy's `text()`, which looks for `:name` inside literals as well. The target query of a
  check is executed as it was compiled exactly when no value the check is declared with holds a colon that no word
  character, colon or backslash precedes, and right after it a word that no colon follows; otherwise resolving its targets
  raises (`Predicates.TargetParameters`, `Predicates.ThreeWayParity`). `code:ok` and `12:30` are harmless, `:ok` is not
  (`BoundText.ParameterExamples`).
* The executor's documentation has a conflicting phantom abort the transaction (apply/executor.py:290-297). An insertion
  by a writer that reads nothing conflicts with nothing: it commits beside a fill, is not filled, and stays NULL. The
  approved set never grows, but a filled column is without NULLs afterwards exactly when nobody has put one there since the
  snapshot (`Conservations.CommitFills`, `Conservations.FillsAreAdmitted`).
* An admission is consumed once, but a decision can be admitted any number of times in its window
  (`Decisions.DecisionAdmitsAgain`). A second admitted call on what the first left behind commits too, exactly when no fill
  of the plan had a row to fill, and is refused at its recheck otherwise: a fill removes its own targets, a quarantine does
  not (`Decisions.SecondCallExactly`). In one execution a single approval files the same orphan twice
  (`Repetitions.OneDecisionFilesTwice`).
* A dry run needs no admission and looks at no warehouse identity; on one state it succeeds exactly when an admitted call
  that is in time runs to its end, and its estimates are that call's row counts (`DryRuns.DryRunPredicts`).
* A commit whose acknowledgement is lost is reported to the caller as a failure; the next call with the same payloads
  returns the committed result.
* Parameters cross Airflow tasks as JSON. A plan survives the trip exactly when no parameter holds a date or a nested tuple
  (`Agreement.RevivedVerifiesExactly`). A compiled plan that fills with a date passes re-derivation before the trip, keeps
  its fingerprint, and is refused after it (`Witnesses.DatePlanDoesNotSurvive`).
* The report fingerprint binds check and contract ids, status and counts, but not the table. Compiler and re-derivation
  agree exactly on reports whose failed checks name the declared table and contract, which every report of the suite does
  (`Agreement.CompilerAndVerifierAgree`, `Suites.SuiteAgrees`).
* The deduplication step of a uniqueness check targets the reported duplicates less one survivor per group exactly when no
  two rows share a key that contains NULL: GROUP BY puts NULL keys together, the Polars join drops them
  (`Dedupe.DedupeParity`, `Dedupe.NullKeyExample`). The policy carries its own list of key columns, which nothing compares
  with the check's; the two agree on every table exactly when they name the same columns or both contain the primary key
  (`Dedupe.PolicyKeysMatterExactly`).
* A `use_registry` that fails leaves both catalogs empty, because the state that loading restores is taken after the clear
  (`Registries.Registry.UseRegistry`). A `load_registry` that fails leaves both as they were.
* A `null_fill` reaches what an orphans item selects exactly when it fills the very column that item joins on
  (`Effects.FillDisturbsExactly`). Apart from that, and from two spellings of one table, the order of a plan's items does
  not matter (`AdmittedRuns.AdmittedOrderIsImmaterial`, `AdmittedRuns.AdmittedPlansDoNotClash`).

## Model

| member | source | states |
|---|---|---|
| `SqlText.InListRoundTrip` | src/airflow_dq_agent/quality/predicates.py:78-79 | Reading the text of an IN list with a lexer for SQL string literals gives back exactly the list of values, for all strings, quotes and commas included. |
| `SqlText.InListInjective` | src/airflow_dq_agent/quality/predicates.py:38-39 | Two lists of values with the same IN-list text are the same list. |
| `SqlText.LikeMeansContains` | src/airflow_dq_agent/quality/predicates.py:72-75 | For every needle the compiler accepts, the general LIKE matcher on its pattern is true of a string exactly when the needle occurs in it. |
| `Sql.OrderBySorts` | src/airflow_dq_agent/action_definitions.py:196-208 | Ordering by a key yields an ordered permutation of the rows, NULL keys included. |
| `Sql.NotInMeans` | src/airflow_dq_agent/action_definitions.py:277-286 | NOT IN is true when every value differs, false when one is equal, and unknown while a NULL leaves it open. |
| `Sql.SelectUnmatched` | src/airflow_dq_agent/action_definitions.py:265-274 | LEFT JOIN with IS NULL on the joined column selects exactly the rows without a partner, each once, in table order. |
| `Actions.ValidateCommonParams` | src/airflow_dq_agent/contracts/remediations.py:26-84 | The accumulating loops report no error exactly when the table is allowed and contracted, the keys are the required ones and every identifier names something. |
| `Actions.DerivationMonotone` | src/airflow_dq_agent/action_definitions.py:62-73 | Growing the catalogs never changes what a check derives. |
| `Renderings.NullsRender` | src/airflow_dq_agent/action_definitions.py:248-253 | Exactly the parameters that name a declared column and the sole primary key render, to a copy of the stored table's rows where that column is NULL. |
| `Renderings.InvalidsRender` | src/airflow_dq_agent/action_definitions.py:256-262 | Exactly the parameters that name a declared validity check of this table and column render, to a copy of the rows that check's compiled predicate selects. |
| `Renderings.OrphansRender` | src/airflow_dq_agent/action_definitions.py:265-274 | Exactly the parameters of one declared foreign key into a contracted table render, on the allow-listed tables, to a copy of the rows without a partner. |
| `Renderings.DedupeRenders` | src/airflow_dq_agent/action_definitions.py:277-286 | On the allow-listed tables exactly declared key columns render, as one name, a list or a tuple, in their order. |
| `Renderings.FillRenders` | src/airflow_dq_agent/action_definitions.py:334-348 | On the allow-listed tables exactly a declared column with a value that is neither missing nor a collection renders, to an update of its NULLs with that value. |
| `Renderings.NotesRender` | src/airflow_dq_agent/action_definitions.py:238-245 | The remaining governed actions render to a comment without targets, an ungoverned one to nothing. |
| `Renderings.DerivedExactly` | src/airflow_dq_agent/action_definitions.py:144-193 | What a check derives is its own column, key, id and first matching foreign key, whatever its rule says of them; only the fill value and the business key come from the rule, which is the first for the action. |
| `Predicates.ContainsParity` | src/airflow_dq_agent/quality/predicates.py:157-159 | NULL or NOT LIKE keeps a row exactly when the negated literal Polars `contains`, NULL counted as a failure, does. |
| `Predicates.WindowParity` | src/airflow_dq_agent/quality/predicates.py:160-163 | The window predicate keeps exactly the rows the Polars filter keeps, with NULL bounds. |
| `Predicates.AllowedParity` | src/airflow_dq_agent/quality/predicates.py:164-165 | NOT IN over the list read back from its text keeps exactly what the negated `is_in` keeps; both drop NULL. |
| `Samples.SampleShowsTargetExactly` | src/airflow_dq_agent/quality/predicates.py:87-148 | Read as PostgreSQL reads unquoted names, the sample query of a check shows the keys apply targets on every database exactly when every name in it is its own lower-case fold and no bare one is reserved. |
| `Samples.ReservedColumnMisleads` | src/airflow_dq_agent/quality/predicates.py:99-104 | A column whose name is a reserved word, such as `user`: apply targets its NULLs, the sample is no query of the column. |
| `Samples.FoldedColumnMisleads` | src/airflow_dq_agent/quality/predicates.py:99-104 | A column such as `Amount` beside one called `amount`: apply targets the row, the sample shows none. |
| `Predicates.DerivedRenders` | src/airflow_dq_agent/action_definitions.py:248-274 | What a built check derives always renders, and the step targets the check's own query. |
| `BoundText.QueryParameters` | src/airflow_dq_agent/action_definitions.py:196-208 | The text of a target query, names quoted, holds a parameter exactly when a literal of its predicate does: nothing reaches across a quote. |
| `BoundText.ListParameters` | src/airflow_dq_agent/quality/predicates.py:78-79 | An IN list holds a parameter exactly when one of its values does, quotes doubled or not. |
| `Predicates.TargetParameters` | src/airflow_dq_agent/planning/targets.py:68-78 | The target query of a built check holds a parameter exactly when a value the check is declared with reads as one. |
| `Predicates.ThreeWayParity` | src/airflow_dq_agent/quality/predicates.py:87-207 | For completeness, every validity form and referential checks, on all table contents with NULLs: the rows apply targets are the Polars rows where no declared value reads as a parameter, and resolving raises where one does; the sample text names the same query without quotes, and where its names are plain it shows the key-ordered prefix of these rows of every length. |
| `Suites.RunSuiteOnFrames` | src/airflow_dq_agent/quality/suite.py:177-216 | The loop ends in a report with one result per registered check, in order, under an intact fingerprint, exactly when no check raises; when one does is `Suites.SuiteReportsExactly`, and what each result says `Measures.ResultMeaning` and `Measures.DriftMeaning`. |
| `Suites.SuiteAgrees` | src/airflow_dq_agent/quality/suite.py:32-59 | Every failed check of a suite report names the declared table and contract. |
| `Suites.SuitePlansVerify` | src/airflow_dq_agent/planning/integrity.py:251-296 | Every unblocked plan compiled from a suite report passes the independent re-derivation. |
| `Suites.SuiteReportsExactly` | src/airflow_dq_agent/quality/suite.py:177-210 | Over catalogs of compiled checks a suite run ends in a report exactly when every check fits the frames: what it needs is missing, which is reported, or the types of its columns suit its operators and no column is named twice. |
| `Measures.DriftMeaning` | src/airflow_dq_agent/quality/predicates.py:210-222 | A schema-drift check on a loaded table passes exactly when the frame shows the declared names; it fails by the number of names only one of the two has, out of all names of either. |
| `Measures.DriftOfMissingTable` | src/airflow_dq_agent/quality/predicates.py:210-213 | A contracted table that was not loaded is one failure, out of its declared columns. |
| `Measures.ResultMeaning` | src/airflow_dq_agent/quality/suite.py:106-111 | A measured check of any other dimension counts the rows that break its declaration, spelled out row by row for each kind of check, out of all rows of its frame, and passes exactly when there are none; an error counts nothing. |
| `Measures.ErrorExactly` | src/airflow_dq_agent/quality/suite.py:142-174 | A check that gets a result is reported as an error exactly when its table, a column it looks at, or what its foreign key points at is missing. The empty business-key column name, which the program skips, is left out. |
| `Suites.DeclaredTypesDecide` | src/airflow_dq_agent/quality/suite.py:177-210 | On every database that matches its contracts that is decided by the declared types, before any data is read. |
| `Misfits.TextSearchOnNumbers` | src/airflow_dq_agent/quality/predicates.py:157-158 | A text search on a column declared int64 loads, and the suite raises on every database that matches the contract. |
| `Misfits.RepeatedKey` | src/airflow_dq_agent/quality/predicates.py:177-182 | So does a business key that names a column twice. |
| `Misfits.KeyIsForeignKey` | src/airflow_dq_agent/quality/predicates.py:183-191 | So does a referential check on a foreign key that is the primary key. |
| `Suites.LoadFrames` | src/airflow_dq_agent/quality/suite.py:86-99 | The loop loads every contracted table by the fold of its qualified name, leaves out what does not exist, and fails exactly when a schema name is reserved or reading a table raises anything else. |
| `Suites.LoadedContentsExactly` | src/airflow_dq_agent/quality/suite.py:86-99 | Suite and apply read the same rows on every database exactly when every contracted table's qualified name is its own fold. |
| `Suites.MeasuredIsPlain` | src/airflow_dq_agent/quality/suite.py:157-204 | A check that got as far as reading data spells its table by the name under which the catalog holds it. |
| `Suites.SuiteCountIsTargetCount` | src/airflow_dq_agent/planning/targets.py:49-78 | For the quarantine of nulls, invalid values and orphans, on unchanged data: the targets resolve inside the apply transaction exactly when no declared value reads as a parameter, and their count is then the number of failures the suite reported. |
| `Suites.FillCountIsTargetCount` | src/airflow_dq_agent/planning/targets.py:49-78 | The same for a fill declared on a completeness check. |
| `Suites.DedupeCountIsTargetCount` | src/airflow_dq_agent/planning/targets.py:49-78 | For the dedupe policy of a uniqueness check the reported count exceeds the target count by the number of duplicated keys. |
| `Dedupe.DedupeParity` | src/airflow_dq_agent/action_definitions.py:277-286 | The step that a uniqueness check's own dedupe policy renders to targets, on the rows the suite read, the reported rows less one survivor of each group, exactly when no two rows share a key that contains NULL; the counts then differ by the number of duplicated keys. |
| `Dedupe.DedupeLeavesEachKeyOnce` | src/airflow_dq_agent/action_definitions.py:277-286 | Outside the rows that step targets, the table carries each business key of the check exactly once. |
| `Dedupe.SmallestIsKept` | src/airflow_dq_agent/action_definitions.py:277-286 | A row is targeted exactly when another of its group has a smaller primary key: integers by value, text at the first character that differs. |
| `Dedupe.PolicyKeysMatterExactly` | src/airflow_dq_agent/action_definitions.py:185-186 | The key columns of policy and check give the same selection on every keyed table exactly when they are the same columns or both contain the primary key; otherwise two rows tell them apart. |
| `Dedupe.NullKeyExample` | src/airflow_dq_agent/quality/predicates.py:177-182 | Two rows with a NULL key: one is targeted and none is reported. |
| `Registries.EveryHistoryKeepsInvariant` | src/airflow_dq_agent/load.py:53-101 | After any sequence of registrations, loads and replacements, failing ones included, every key is its entry's own id and every declared policy derives valid parameters. |
| `Registries.DerivationsAreStable` | src/airflow_dq_agent/quality/registry.py:78-96 | Until the registry is replaced, a registered check stays and what it derives never changes. |
| `Registries.BuiltStays` | src/airflow_dq_agent/quality/registry.py:44-66 | Later registrations never make a compiled sample or quarantine predicate stale. |
| `Registries.LoadedChecksAreBuilt` | src/airflow_dq_agent/load.py:53-94 | After a load every check carries what the catalogs, as they then are, compile it to. |
| `Registries.LoadAdds` | src/airflow_dq_agent/load.py:38-94 | A document that loads adds every table under its own key and every check as declared, with contract id, sample and predicate filled in, and nothing else, to what was there. |
| `Registries.Registry.RegisterContract` | src/airflow_dq_agent/contracts/tables.py:91-96 | Inserts under the last segment and keeps every other entry, or refuses and changes nothing. |
| `Registries.Registry.RegisterCheck` | src/airflow_dq_agent/quality/registry.py:78-90 | Inserts, derives every policy in the grown catalog, and leaves the catalogs as they were when one does not derive. |
| `Registries.Registry.LoadRegistry` | src/airflow_dq_agent/load.py:38-94 | A failed load leaves both catalogs as they were; a load that succeeds adds exactly the document's tables and checks, each under its own key, and keeps the rest. |
| `Registries.Registry.UseRegistry` | src/airflow_dq_agent/load.py:97-101 | Replaces the catalogs by the document's; a failing document leaves both empty. |
| `CheckPolicies.JustifyMeaning` | src/airflow_dq_agent/check_policy.py:46-97 | An action is justified with given parameters exactly when it is governed and every cited check is declared, failed under the cited contract and derives those parameters. |
| `CheckPolicies.RefusalReasons` | src/airflow_dq_agent/check_policy.py:46-97 | Each refusal code has its exact cause: the first unsound piece of evidence names an undeclared check, or one that did not fail so; a cited check does not declare the action; parameters do not derive, or not alike. |
| `CheckPolicies.JustifyAction` | src/airflow_dq_agent/check_policy.py:46-97 | The loop that appends cited specs and stops at the first bad one computes that justification with its reason codes. |
| `Planning.CurrentPolicyFingerprint` | src/airflow_dq_agent/planning/compiler.py:63-71 | The loop yields the snapshot of every executable item in plan order, or refuses at the first unknown check, contract or action. |
| `Planning.CompileRemediationPlan` | src/airflow_dq_agent/planning/compiler.py:91-242 | The pass that appends items and accumulates coverage builds the specified plan, omitted coverage included. |
| `Compilations.CandidatesCompile` | src/airflow_dq_agent/planning/compiler.py:111-192 | Item by item, over the proposal: a candidate whose action and evidence multiset are asked for elsewhere too is blocked as a duplicate, each of them; otherwise it is executable exactly when it is justified, on one table, with resolved targets, and carries the derived parameters, the resolved targets and its evidence. |
| `Compilations.OmittedExactly` | src/airflow_dq_agent/planning/compiler.py:194-206 | The omitted-coverage item lists exactly the failed checks no item accounts for, under their own contracts; without any there is no such item. |
| `Compilations.OmittedInOrder` | src/airflow_dq_agent/planning/compiler.py:194-206 | The omitted failures are listed in the order in which their checks first failed. |
| `Compilations.IncompleteBlocks` | src/airflow_dq_agent/planning/compiler.py:119-129 | Under an incomplete suite no item is executable, every candidate with evidence is blocked for that reason, and the plan is blocked. |
| `Compilations.ReasonsExactly` | src/airflow_dq_agent/planning/compiler.py:207-242 | The blocked reasons are those of the blocked items in order, and the plan is blocked exactly when there is one. |
| `Planning.OmittedMeaning` | src/airflow_dq_agent/planning/compiler.py:195-215 | The omitted-coverage evidence is exactly the failed checks no item accounts for, each with its own contract. |
| `Planning.VerifyExecutableParams` | src/airflow_dq_agent/planning/integrity.py:251-296 | The re-derivation loop accepts exactly the plans whose executable items are each justified, pairwise distinct and, unless blocked, together cite every failed check. |
| `Agreement.UnblockedShape` | src/airflow_dq_agent/planning/compiler.py:111-242 | An unblocked plan comes from a complete suite, has one executable item per candidate and cites every failed check. |
| `Agreement.CompilerAndVerifierAgree` | src/airflow_dq_agent/planning/integrity.py:251-296 | Every unblocked compiled plan passes re-derivation exactly when the report's failed checks name the declared table and contract. |
| `Agreement.CompiledSnapshotCurrent` | src/airflow_dq_agent/planning/compiler.py:51-71 | Under unchanged catalogs the snapshot recomputed at a later seam is the one taken at compilation. |
| `Agreement.RevivedIsSame` | src/airflow_dq_agent/contracts/models.py:224-237 | A plan comes back from dump and revival unchanged exactly when no parameter holds a date or a nested tuple. |
| `Agreement.RevivedStaysIntact` | src/airflow_dq_agent/planning/integrity.py:38-57 | The plan fingerprint never notices that trip. |
| `Agreement.RevivedVerifiesExactly` | src/airflow_dq_agent/planning/integrity.py:251-296 | A plan that passes re-derivation before the trip passes after it exactly when every parameter is JSON-stable. |
| `Witnesses.DatePlanDoesNotSurvive` | src/airflow_dq_agent/contracts/models.py:224-237 | A compiled plan that fills with a date passes re-derivation, comes back under the same fingerprint, and is refused. |
| `Agreement.OtherActionsAreStable` | src/airflow_dq_agent/contracts/models.py:224-237 | Whatever any action but `null_fill` derives survives the trip. |
| `Evaluations.CheckPolicyGate` | src/airflow_dq_agent/evals/harness.py:141-175 | The scoring loop passes exactly when every action of the proposal is justified and every failed check is cited. |
| `Evaluations.ProposalGateIsPolicy` | src/airflow_dq_agent/evals/harness.py:178-222 | The six scores come down to one gate: under every valid threshold setting a proposal passes exactly when the suite is complete, every action is justified and every failed check is covered. |
| `Scores.CitationMeaning` | src/airflow_dq_agent/evals/harness.py:56-82 | The citation score is the share of the failed checks that the proposal cites, nothing when one citation is invented, and all or nothing without failures. |
| `Scores.DestructiveMeaning` | src/airflow_dq_agent/evals/harness.py:107-121 | An identifier outside the catalog is destructive exactly when one of the four words is part of it, in whatever case. |
| `Scores.ScoresMean` | src/airflow_dq_agent/evals/harness.py:178-222 | The scores come in one order and each passes exactly when the candidate, passing or not, meets what its name asks for. |
| `Evaluations.EvaluationPredictsCompilation` | src/airflow_dq_agent/planning/compiler.py:111-192 | A passing proposal compiles to one item per action with no policy refusal and no omitted coverage, and the plan is blocked exactly when some action is a duplicate, spans tables or has unresolved targets. |
| `Evaluations.SafeProposalForXcom` | src/airflow_dq_agent/agent/sanitize.py:17-59 | The rebuilding loop yields the sanitised proposal or refuses. |
| `Evaluations.SanitizingKeepsItems` | src/airflow_dq_agent/agent/sanitize.py:26-50 | Compiling the sanitised proposal gives the same items as compiling the original. |
| `Evaluations.NarrativeDoesNotCross` | src/airflow_dq_agent/agent/sanitize.py:17-59 | Proposals that request the same actions on the same evidence sanitise to the same text: no model-written prose crosses the boundary. |
| `Evaluations.EvaluationAcceptsUnblocked` | src/airflow_dq_agent/evals/harness.py:225-288 | Plan evaluation passes every unblocked compiled plan and no blocked one. |
| `Refusals.EvaluationMeans` | src/airflow_dq_agent/evals/harness.py:225-288 | On any plan, compiled or not: evaluation refuses one its fingerprint does not cover, otherwise passes it exactly without a failing score, and names plan and failing scores. |
| `Refusals.ReportFingerprintCovers` | src/airflow_dq_agent/contracts/fingerprints.py:29-45 | Two reports have one fingerprint exactly when run and every outcome are the same; tables do not enter. |
| `Refusals.PlanFingerprintCovers` | src/airflow_dq_agent/planning/integrity.py:38-57 | Two plans have one fingerprint exactly when their ids, run, candidate, policy, warehouse and dumped items are the same. |
| `Refusals.SmallFingerprintsCover` | src/airflow_dq_agent/planning/integrity.py:60-144 | Evaluation, decision and admission fingerprints each cover exactly the listed fields. |
| `Refusals.ResultFingerprintCovers` | src/airflow_dq_agent/apply/executor.py:263-287 | A result's fingerprint covers exactly its run, plan, admission and the evidence of every step. |
| `Refusals.SnapshotCovers` | src/airflow_dq_agent/planning/compiler.py:51-71 | An item's policy snapshot exists exactly when action, checks and contracts are known, and two are equal exactly when every cited check and its contract are the same. |
| `Lineage.LineageReachesRoot` | src/airflow_dq_agent/traces/lineage.py:69-93 | In a closed lineage, following predecessors from any event ends, in stage order, at the quality report of the same run. |
| `Lineage.AuditRepository.Persist` | src/airflow_dq_agent/traces/repository.py:27-31 | A write stores and returns, is lost, or stores and still raises. |
| `Admissions.ParsedDecisionsAreValid` | src/airflow_dq_agent/hitl.py:39-86 | Whatever parsing accepts also passes validation; an approval needs the chosen option and is never a timeout. |
| `Approvals.ParsedFields` | src/airflow_dq_agent/hitl.py:39-71 | A parsed decision carries the operator's time, the responder's allow-listed identity, the id before the name, and the stripped note. |
| `Approvals.RefusedExactly` | src/airflow_dq_agent/hitl.py:39-71 | An answer is refused exactly when it names no option, comes from nobody allowed, or approves without a note. |
| `Approvals.RecordedMeans` | src/airflow_dq_agent/hitl.py:74-110 | A decision can be recorded exactly when nobody skipped it, only a timeout speaks for the operator, anyone else is an approver and an approval says why; the stored event is of its kind and carries its fields and binding. |
| `Admissions.RefuseConflicting` | src/airflow_dq_agent/planning/admission.py:98-125 | The three growing sets refuse exactly the plans that cite a check twice or mutate one table spelling twice. |
| `Admissions.CreateApplyAdmission` | src/airflow_dq_agent/planning/admission.py:128-198 | An admission is minted exactly when every guard holds, the decision lies in its window and no items conflict, and every field of it is the plan's, the evaluation's or the decision's; it expires one ttl after the decision. |
| `Approvals.AdmittedAsRecorded` | src/airflow_dq_agent/planning/admission.py:49-66 | The rejecting half: if the named event was written by recording a decision, whatever is admitted is that decision, unchanged in id, kind, actor, note and time, by one of its approvers, and expires one ttl after the recorded time. |
| `Approvals.AdmittedAsReviewed` | src/airflow_dq_agent/planning/admission.py:67-95 | The approval an admission names and the review event before it carry one fingerprint, and what it covers is exactly this plan's items as shown, this evaluation and this ttl. |
| `Approvals.ReviewBuilt` | src/airflow_dq_agent/planning/review.py:34-82 | A review is built exactly under a positive ttl, of an evaluation with a fingerprint and governed items. |
| `Approvals.AdmittedAsPrepared` | src/airflow_dq_agent/planning/admission.py:29-95 | If the approval was recorded with the binding of a prepared plan, the admitted plan is that plan up to the JSON dump, with its evaluation and its ttl. |
| `Approvals.MutationsStayInRecordedWindow` | src/airflow_dq_agent/apply/executor.py:378-395 | Every armed deadline of a run under the admission ends within one ttl of the recorded decision. |
| `Refusals.AdmissionRefuses` | src/airflow_dq_agent/planning/admission.py:137-183 | Whatever is admitted is consistent: fingerprints cover their payloads, each item answers failures of this report on its own table under declared checks that declare its action, no request occurs twice, every failure is answered, and the decision approves in time. |
| `Journeys.RunBegins` | src/airflow_dq_agent/traces/lineage.py:73-93 | The audited report and candidate make a closed lineage from which preparation can start. |
| `Journeys.PreparePlanReview` | src/airflow_dq_agent/planning/preparation.py:21-55 | Each event is stored before the next artifact is built; whichever write is lost or raises after storing, the lineage stays closed and earlier events stay; a candidate whose evaluation failed, or a report that is not durable and intact, leaves the store as it was. |
| `Refusals.PreparedEvents` | src/airflow_dq_agent/planning/preparation.py:30-55 | Nothing is prepared from a candidate whose evaluation failed or a report not durable or not intact; the three events name run and plan, each after the one before, and bind the evaluation and a review of exactly this plan. |
| `Journeys.RecordHumanDecision` | src/airflow_dq_agent/hitl.py:89-110 | An invalid decision writes nothing; a recorded one is returned only once its bound event is durable. |
| `Journeys.AuditThenComplete` | src/airflow_dq_agent/hitl.py:113-133 | The provider completes only after the outcome is durable, and an approval carries an allow-listed actor. |
| `Journeys.EndToEndAdmission` | src/airflow_dq_agent/planning/admission.py:29-198 | An unblocked prepared plan approved with its full binding is admitted exactly when decided_at <= now < decided_at + ttl and no items conflict. |
| `Journeys.EvidencePartition` | src/airflow_dq_agent/planning/admission.py:98-125 | In every admitted plan the evidence lists together name each failed check exactly once and nothing else, and no table spelling has two mutating items. |
| `Witnesses.AdmittedUnderTwoSpellings` | src/airflow_dq_agent/planning/admission.py:116-125 | A registry whose suite report leads, through every guard of admission, to a plan with a quarantine and a fill on one contracted table under two spellings. |
| `Spellings.ConflictCheckExactly` | src/airflow_dq_agent/planning/admission.py:98-125 | The conflict check catches every contracted table that a justified plan mutates twice, on all plans and reports, exactly when mutating checks spell one contracted table one way. |
| `Journeys.PlainSpellingsNeverConflict` | src/airflow_dq_agent/planning/admission.py:116-125 | Among plain spellings the conflict check misses nothing. |
| `Authority.AdmittedPassesEntry` | src/airflow_dq_agent/apply/executor.py:224-245 | What admission accepts, apply accepts at its entry exactly when all items are executable, the policy snapshot is current and the connection reaches the plan's warehouse. |
| `Refusals.EntryRefuses` | src/airflow_dq_agent/apply/executor.py:224-245 | Whatever apply accepts is consistent, wholly executable, under a current snapshot, for the connected warehouse, and of the admission it carries, field by field. |
| `Refusals.AcceptedAsAdmitted` | src/airflow_dq_agent/planning/integrity.py:213-248 | A call that carries an admission's fingerprint carries that admission, the plan it was minted for up to the JSON dump, and its verdict. |
| `Authority.PreparedPlanReachesApply` | src/airflow_dq_agent/apply/executor.py:103-119 | A prepared, approved and admitted plan passes the entry of apply exactly on the warehouse it was compiled for. |
| `Authority.MutationsStayInDecisionWindow` | src/airflow_dq_agent/planning/admission.py:157-167 | Every armed statement starts and is cut off no later than one ttl after the human decision. |
| `Authority.ApplyClosesLineage` | src/airflow_dq_agent/traces/lineage.py:181-219 | The record of an admitted plan keeps the lineage closed, and six steps back from it stands the report of its run. |
| `Closures.LineageStaysClosed` | src/airflow_dq_agent/apply/executor.py:343-364 | In every state of every execution whose calls were approved and whose other events follow stored ones, the lineage is closed. |
| `Closures.CommitsReachReport` | src/airflow_dq_agent/traces/lineage.py:181-219 | From the record of every commit, predecessors lead back to the quality report of its run. |
| `Transactions.ArmDeadline` | src/airflow_dq_agent/apply/executor.py:378-395 | A deadline is armed exactly when a whole millisecond remains, and ends at most one millisecond short of expiry and never past it. |
| `Refusals.ConsumedStops` | src/airflow_dq_agent/apply/executor.py:122-128 | The transaction stops as consumed exactly when it is in time, the admission id is not blank and the log has it. |
| `Refusals.RecordTells` | src/airflow_dq_agent/apply/executor.py:303-340 | A commit adds one log row and one event, after the decision it was admitted on, with every item's target fingerprint and every step's counts in order, and otherwise leaves log and trace alone. |
| `Recoveries.RecoveryInvertsCommit` | src/airflow_dq_agent/apply/executor.py:131-221 | Recovery of a recorded run rebuilds the original result field by field, every re-rendered step included, when the plan spells its tables plainly, and refuses when it does not. |
| `Spellings.SuitePlansPlainExactly` | src/airflow_dq_agent/quality/suite.py:157-216 | For an unblocked plan over a complete suite run, every table is spelled by the contract's own name exactly when no schema-drift check of the suite is spelled with a dot. |
| `Spellings.SuiteRecoveryInvertsCommit` | src/airflow_dq_agent/apply/executor.py:183-202 | Recovery of a committed plan of the suite gives the original result back exactly when no schema-drift check was spelled with a dot, and refuses it otherwise. |
| `Witnesses.CommittedAndRefused` | src/airflow_dq_agent/apply/executor.py:187-191 | An admitted call that returns and commits, and is refused when it is simply made again. |
| `Recoveries.AcceptedPayloadIsCommitted` | src/airflow_dq_agent/apply/executor.py:167-221 | Whatever intact payloads recovery accepts are the committed admission, plan items, policy and evaluation. |
| `Refusals.RecoveredTells` | src/airflow_dq_agent/apply/executor.py:131-221 | On any database: recovery returns only what the first row of a non-blank admission id and its event record for this very plan and admission, step by step. |
| `Recoveries.SnapshotFixesRendering` | src/airflow_dq_agent/planning/compiler.py:51-71 | On any catalogs, equal policy snapshots fix what an item renders to, for an orphans item exactly when the joined table is named the same; for registered checks see `Spellings.RegisteredRecoverable`. |
| `Effects.LoopRefinesReference` | src/airflow_dq_agent/apply/executor.py:500-520 | Statements that do not disturb one another, run in each other's wake, copy, count and fill exactly what each would on the untouched snapshot. |
| `Effects.OrderIsImmaterial` | src/airflow_dq_agent/apply/executor.py:500-520 | In any order they leave the same sources and the same multiset of quarantined rows. |
| `Effects.FillDisturbsExactly` | src/airflow_dq_agent/action_definitions.py:265-274 | A fill leaves an orphans selection alone on every database exactly when it does not fill the column joined on. |
| `AdmittedRuns.TablesApartExactly` | src/airflow_dq_agent/action_definitions.py:196-235 | The rendered statements change each table at most once exactly when the plan mutates no contracted table twice, however it spells them. |
| `AdmittedRuns.AdmittedPlansDoNotClash` | src/airflow_dq_agent/planning/admission.py:98-125 | The statements of such a plan do not disturb one another, given that no fill sits under a join. |
| `Spellings.SuiteRunsAreOrderly` | src/airflow_dq_agent/planning/admission.py:98-125 | This holds of every admitted plan of a suite without a dotted schema-drift check. |
| `Witnesses.OrderMatters` | src/airflow_dq_agent/apply/executor.py:500-520 | With two spellings of one table the order of the items decides what is quarantined. |
| `AdmittedRuns.CopiedKeysAreAdmitted` | src/airflow_dq_agent/action_definitions.py:196-235 | The rows a statement files carry exactly the primary keys under the admitted fingerprint, with multiplicity. |
| `AdmittedRuns.AdmittedRun` | src/airflow_dq_agent/apply/executor.py:487-520 | Every step of a run whose statements do not disturb one another changes exactly as many rows as were admitted and rechecked, and sees the snapshot. |
| `AdmittedRuns.AdmittedOrderIsImmaterial` | src/airflow_dq_agent/apply/executor.py:500-520 | Such statements in any other order leave the same sources and quarantine the same rows. |
| `AdmittedRuns.QuarantineOnlyLeavesSources` | src/airflow_dq_agent/action_definitions.py:211-235 | A plan without `null_fill` leaves every source table as it was. |
| `AdmittedRuns.DeadlinesBoundTheRun` | src/airflow_dq_agent/apply/executor.py:475-548 | The start of the transaction, every item and the record each start at a clock reading at least one millisecond before expiry, under a timeout that ends no later than expiry. |
| `Protocol.TransitionKeeps` | src/airflow_dq_agent/apply/executor.py:447-596 | Every step of every worker and of everyone else keeps the protocol invariant. |
| `Protocol.InvariantHolds` | src/airflow_dq_agent/apply/executor.py:411-596 | Every state of every execution satisfies it. |
| `Protocol.RecoveredReportsCommit` | src/airflow_dq_agent/apply/executor.py:145-221 | What any call recovers is the identity, counts and fingerprint of a commit under its own admission. |
| `Guarantees.ExactlyOnce` | src/airflow_dq_agent/demo/ddl.sql:149-185 | In every reachable state an admission with a non-empty id has at most one log row, the quarantine is exactly what the logged commits put there, and every commit is of an accepted call. |
| `Guarantees.OnlyCommitsMutate` | src/airflow_dq_agent/apply/executor.py:475-552 | Nothing but a commit changes quarantine, log or, apart from foreign writers, the sources; a commit does all of it at once. |
| `Guarantees.SnapshotsArePast` | src/airflow_dq_agent/apply/executor.py:290-300 | Every commit and every running transaction works on a snapshot that was a state of this database earlier in the same execution. |
| `Guarantees.EmptyIdCommitsTwice` | src/airflow_dq_agent/demo/ddl.sql:149-151 | A reachable state with two log rows under the empty admission id. |
| `Guarantees.AtMostOnceExactly` | src/airflow_dq_agent/demo/ddl.sql:149-151 | At most one commit in every reachable state holds exactly of the admission ids that are not empty. |
| `Conservations.OrderlyWhen` | src/airflow_dq_agent/apply/executor.py:487-520 | A commit is orderly, its statements not disturbing one another, when its plan only quarantines, or mutates no contracted table twice and fills no column that one of its orphans items joins on. |
| `Conservations.CommitConserves` | src/airflow_dq_agent/apply/executor.py:487-540 | An orderly run files the target rows of its snapshot under the admitted keys, and its log row's count of changed rows is the admitted count. |
| `Payloads.CopiedRowsAreWhole` | src/airflow_dq_agent/action_definitions.py:196-208 | A copy statement files the selected rows whole and in order, each under its run, table, key and reason. |
| `Payloads.CommitFilesWholeRows` | src/airflow_dq_agent/action_definitions.py:196-208 | The payloads an orderly commit files are the snapshot rows its items select, with multiplicity. |
| `Payloads.QuarantineHoldsWholeRows` | src/airflow_dq_agent/action_definitions.py:196-208 | In every reachable state whose commits are orderly the quarantine's payloads are the multiset of those rows over all commits. |
| `Payloads.QuarantineKeysMatch` | src/airflow_dq_agent/action_definitions.py:196-208 | In every reachable state each quarantined row holds, under its key column, the key it is filed under. |
| `Conservations.QuarantineIsAdmitted` | src/airflow_dq_agent/action_definitions.py:196-235 | In every reachable state the quarantine holds exactly the keys the committed admissions were approved for, with multiplicity, under the run, table and action that filed them. |
| `Conservations.QuarantineIsCounted` | src/airflow_dq_agent/apply/executor.py:311-340 | Without fills, the quarantine has exactly as many rows as the log says were targeted. |
| `Merges.UpdatesReplace` | src/airflow_dq_agent/apply/executor.py:290-300 | Committing row updates over a table in which none of the updated rows has changed replaces exactly these rows, with multiplicity, and keeps every other row, those inserted meanwhile included. |
| `Conservations.CommitFills` | src/airflow_dq_agent/action_definitions.py:334-348 | On commit each fill fills, in the table as it then is, exactly the rows its snapshot had NULL, with the declared value; every other row and every other table stays, and what is left NULL is what others have put there since. |
| `Payloads.FilledRowsHoldTheValue` | src/airflow_dq_agent/action_definitions.py:334-348 | A fill puts the declared value into the NULLs of its column, with integers and flags as numbers and text and dates as text, and touches no other cell. |
| `Conservations.FillsAreAdmitted` | src/airflow_dq_agent/apply/executor.py:500-520 | The rows a fill changes are as many as were admitted, and its column is without NULLs afterwards exactly when nobody else has put one there since the snapshot. |
| `Conservations.SourcesAreForeign` | src/airflow_dq_agent/action_definitions.py:211-235 | Along any execution whose commits only quarantine, the source tables are what writers outside the protocol last left there. |
| `Retries.AllReturnsAgree` | src/airflow_dq_agent/apply/executor.py:447-583 | Any two calls under one non-empty admission id that return, return the same identities, counts and fingerprint. |
| `Retries.RecoversExactly` | src/airflow_dq_agent/apply/executor.py:186-221 | A retry reads the committed result back exactly when its catalogs render the committed steps again. |
| `Retries.RecoverableAcrossProcesses` | src/airflow_dq_agent/apply/executor.py:183-202 | Under equal policy snapshots that is exactly when the plan spells its tables plainly and the joined tables are named the same. |
| `Spellings.RegisteredRecoverable` | src/airflow_dq_agent/planning/compiler.py:51-71 | Between registries of compiled checks, for plans whose orphans items cite referential checks, it is exactly when the plan spells its tables plainly: the compiled sample in the snapshot names the joined table. |
| `ReferencedSchemas.SnapshotMissesParent` | src/airflow_dq_agent/planning/compiler.py:51-71 | Two registries of compiled checks, equal in snapshot and accepting the same payloads, where a result committed under the one is not recoverable under the other: the orphans policy sits on a completeness check. |
| `Retries.RetryAgreement` | src/airflow_dq_agent/apply/executor.py:447-583 | After a commit under a non-blank id, every later uninterrupted call with the same payloads ends within three moves of its own, under any clock and interleaving, and has returned the committed result exactly when it is recoverable. |
| `Spellings.SuiteRetryAgreement` | src/airflow_dq_agent/apply/executor.py:447-583 | For plans of the suite the last condition is exactly that no schema-drift check was spelled with a dot. |
| `Retries.RetryCanMove` | src/airflow_dq_agent/apply/executor.py:447-583 | Such a call is never stuck: until it has ended its next move is enabled. |
| `Retries.RetryWritesNothing` | src/airflow_dq_agent/apply/executor.py:138-146 | None of its moves changes the database. |
| `Retries.BlankIsNeverRecovered` | src/airflow_dq_agent/demo/ddl.sql:220-265 | A blank id is never consumed, and looking for its result ends in refusal. |
| `Executor.RequirePlanAdmission` | src/airflow_dq_agent/apply/executor.py:224-245 | The chain of guards accepts exactly the accepted calls of the protocol. |
| `Executor.RecoverCommittedResult` | src/airflow_dq_agent/apply/executor.py:131-221 | The lookup with its loop over recorded steps computes the specified recovery. |
| `Executor.RecheckTargets` | src/airflow_dq_agent/apply/executor.py:487-496 | The recheck loop passes only when every item resolves to its admitted target set. |
| `Executor.MutateItems` | src/airflow_dq_agent/apply/executor.py:500-520 | The loop that renders, arms, executes and appends is the specified run of the items, and stops where it stops. |
| `Executor.RunTransaction` | src/airflow_dq_agent/apply/executor.py:475-544 | Whatever the database does not interrupt between BEGIN and the record is the specified transaction body. |
| `Executor.Database.Record` | src/airflow_dq_agent/demo/ddl.sql:145-185 | The record waits for a colliding key in progress, fails on a committed one, and otherwise holds both keys. |
| `Executor.Database.Commit` | src/airflow_dq_agent/apply/executor.py:475-552 | A commit takes effect whole, over what others have committed, or fails because a row it updated changed. |
| `Executor.ApplyPlan` | src/airflow_dq_agent/apply/executor.py:411-596 | Whatever others and the database do, the call is the moves of one protocol worker and its outcome is how that worker ends; a refused entry touches nothing; undisturbed, it returns and leaves behind exactly the specified result. |
| `Executor.ApplyingAgain` | src/airflow_dq_agent/apply/executor.py:447-583 | A second undisturbed call with the same plan and admission, under any clock, changes nothing and returns what the first committed. |
| `Executor.RunsKeepPromises` | src/airflow_dq_agent/apply/executor.py:411-596 | A database used by such calls has at most one log row per admission, and a caller that got a result got that of the one committed run. |
| `Decisions.DecisionAdmitsAgain` | src/airflow_dq_agent/planning/admission.py:128-167 | Whatever a decision admitted once it admits again inside its window, under another id, with the same expiry and the same standing at the entry of apply. |
| `Decisions.SecondRunExactly` | src/airflow_dq_agent/apply/executor.py:475-520 | On what an undisturbed run leaves behind, a second run of the plan under an unconsumed admission in time reaches its end exactly when no fill was admitted for any row, and otherwise stops at the recheck. |
| `Decisions.SecondCallExactly` | src/airflow_dq_agent/apply/executor.py:447-583 | From any reachable state: the first of two such calls commits, and the second commits exactly in that case and is refused otherwise. |
| `Repetitions.OneDecisionFilesTwice` | src/airflow_dq_agent/planning/admission.py:128-167 | An execution with two commits under two non-empty admission ids of one decision, and two quarantine rows for one orphan. |
| `DryRuns.DryRunPlan` | src/airflow_dq_agent/apply/executor.py:248-260 | The guards, the recheck loop and the rendering loop of a dry run compute the specified steps, and nothing is written. |
| `DryRuns.BodyExactly` | src/airflow_dq_agent/apply/executor.py:475-544 | In time and under an unconsumed admission, nothing but a changed target set can stop a run. |
| `DryRuns.BodyEndsExactly` | src/airflow_dq_agent/apply/executor.py:474-540 | A transaction the database does not interrupt ends in exactly one of four ways, each with its exact condition: late at the first reading, or later when nothing else is wrong; consumed; failed because some target set changed; ready. |
| `DryRuns.DryRunRefuses` | src/airflow_dq_agent/apply/executor.py:248-260 | Whatever a dry run accepts is consistent, wholly executable and under a current snapshot. |
| `DryRuns.DryRunPredicts` | src/airflow_dq_agent/apply/executor.py:487-520 | On the same state a dry run succeeds exactly when such a call runs to its end, and its estimates are the row counts of that call. |

## Left out

- Conservations.QuarantineIsAdmitted: is stated for orderly commits; `Effects.FillDisturbsExactly` and `Witnesses.OrderMatters` show what happens to others.
- Samples.SampleShowsTargetExactly: does not speak of a window check whose two bounds are the checked column itself, which selects nothing either way, and takes a reserved word to be no column, whatever else PostgreSQL makes of it.
- Suites.SuiteCountIsTargetCount: requires that the qualified names of the tables the check reads are their own folds; `Suites.LoadedContentsExactly` shows why.
- Retries.RetryAgreement: assumes that no database error and no crash hits the retry itself; a retry that is hit can be retried.
- Executor.ApplyPlan: models mutating calls, `DryRuns.DryRunPlan` the others; the supplementary JSONL export after a commit and the moment of the failure event emitted on other errors are not modelled; in the protocol that event is one of the audit events that may be written at any time.
- Executor.Database.Commit: two equal rows are one row counted twice, so that a row deleted and inserted again as it was is no conflict; serialization failures between serializable transactions are aborts that may happen at any step.
- DryRuns.DryRunPlan: interruptions by the database and the audit event that a dry run appends are not modelled.
- Decisions.SecondCallExactly: the two calls follow one another undisturbed; what others change in between decides through the recheck alone (`DryRuns.BodyExactly`).
- Transactions.ArmDeadline: computes whole milliseconds exactly; the program divides in floating point and may arm one millisecond less.
- Journeys.PreparePlanReview: the candidate's event id is taken as audited under the report's run, which the program does not check.
- Uniqueness samples: the sample of a uniqueness check lists groups, not rows, and is not compared with its target.
- Suites.RunSuiteOnFrames: messages, sampled failing rows and casts of dates are not modelled; schema drift is a count of columns.
- Suites.SuiteReportsExactly: which column types an operator accepts is written out in `Frames` as Polars has it: `str.contains` text only, `is_in` text or a column without values, comparisons no text with anything else, joins one type on both sides, integers of every width being one type.
- SHA-256 and canonical JSON: fingerprints are free terms over the hashed payloads.
- Rendered SQL: queries are predicate trees; only their target text, string literals, IN lists and LIKE patterns are text.
- Predicates.TargetParameters: every character beyond ASCII counts as a word character, and a backslash before a colon, which `text()` drops, is kept.
- Scores.DestructiveMeaning: letters beyond ASCII whose capital form contains one of the words' letters are not folded.
- `null_fill` coercion: a fill value is accepted unless it is missing or a collection; conversion by column type and its refusals are not modelled.
- Python equality across int and bool, integer widths of the log's count columns, time zones and dictionary order beyond registration order.
- Database privileges: the roles of `demo/ddl.sql` are not modelled; a `null_fill` runs with whatever rights the connection has.
- Reading configuration, YAML and JSON payloads: parsed values are the inputs, together with what their models enforce.
- Review text, shadow review, the Airflow operators and DAGs, the agent runner, the catalog server, demo seeding and the command line.

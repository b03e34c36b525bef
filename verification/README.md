# pg_mdm: a verified model of the entity-resolution core

`pg_mdm` matches source records that describe the same entity, clusters them, gives each cluster a
stable identity, selects its golden values, and lets stewards and automated policies act on open
reviews. This project models that core in Dafny and proves what it promises.

| part | files |
|---|---|
| shared | `Prelude.dfy`, `Types.dfy` |
| clustering resolver | `ResolverSpec.dfy` (what it computes), `ResolverSafety.dfy`, `ResolverTheorems.dfy`, `ResolverLocality.dfy`, `ResolverOrder.dfy`, `ResolverLaws.dfy`, `ResolverOutcomes.dfy` (its guarantees), `UnionFind.dfy`, `Component.dfy`, `Resolver.dfy` (the in-place algorithm), `Oracle.dfy`, `OracleRefinement.dfy` (the set-based reference) |
| incremental evaluation | `Affected.dfy`, `Incremental.dfy`, `IncrementalAcceptance.dfy` |
| stable identities | `IdentitySpec.dfy`, `IdentityLedger.dfy`, `IdentityLineage.dfy`, `IdentityIncremental.dfy`, `IdentityAliases.dfy`, `IdentityLaws.dfy`, `Identity.dfy`, `IdentityHistory.dfy` |
| golden values, reviews, evaluation | `Golden.dfy`, `GoldenLaws.dfy`, `Evaluation.dfy`, `EvaluationLaws.dfy`, `GoldenSelection.dfy`, `Reviews.dfy`, `ReviewLaws.dfy` |
| steward decisions | `Constraint.dfy`, `Decisions.dfy`, `DecisionLaws.dfy` |
| candidates and pairs | `Candidate.dfy`, `CandidateBlocking.dfy`, `CandidateComposite.dfy`, `CandidateGeneration.dfy`, `CandidateLaws.dfy`, `PairKeys.dfy`, `PairLaws.dfy`, `Levenshtein.dfy` |
| refresh graph | `Graph.dfy`, `GraphCompile.dfy`, `GraphLaws.dfy` |
| policy cases | `PolicyCases.dfy`, `PolicyProtocol.dfy`, `PolicyLaws.dfy`, `PolicyTables.dfy` |

The usual shape is: a function or predicate says what an operation means, methods that update arrays,
maps and fields are proved against it, and the guarantees are lemmas about the function. The resolver's
meaning is a sequence of merges on a partition (`ResolverSpec.Resolve`); `Resolver.ResolveInput` runs
the path-compressing union-find with per-root summaries and returns exactly that result. The ledger's
meaning is a function from the old four tables to the new (`IdentitySpec.Next`); `Identities.Reconcile`
builds the same tables step by step.

The files named `...Laws.dfy` say what each operation yields over its inputs and outputs alone: which
evidence admits a merge, which component keeps an identity, which value a policy selects, when an
escalation is due. Their statements call no helper of the algorithms or of the functions that
specify them, so they pin what is done and not how it is written.

Identifiers, sort keys and evidence groups are natural numbers of which only the order is used; digests
are treated as injective and so replaced by what they digest; clocks, allocators, the session and the
rendering of reviews are parameters.

## Model

| member | source | states |
|---|---|---|
| UnionFinds.UnionFind.Find | src/resolver/union_find.rs:15-20 | Returns the representative of the node's class, compresses the path, and changes no class. |
| UnionFinds.UnionFind.Union | src/resolver/union_find.rs:22-36 | Joins exactly the two classes and keeps the root that comes first in (sort key, index). |
| UnionFinds.UnionFind.Size | src/resolver/union_find.rs:38-41 | The number of members of the node's class. |
| Components.Singleton | src/resolver/component.rs:15-30 | A component of one record with that record's non-empty authority claims. |
| Components.Merge | src/resolver/component.rs:40-51 | Members and authority claims are united and the lesser key is kept; an empty component changes nothing. |
| Components.AuthoritiesConflictMeans | src/resolver.rs:217-227 | The table test finds a conflict exactly when both sides claim a field and differ in a value. |
| Resolver.MergeComponents | src/resolver.rs:341-362 | After a merge every root's summary again describes exactly its class of the merged partition. |
| Resolver.EstablishedAdmission | src/resolver.rs:284-323 | Rejects a merge of larger components for the reason the specification gives from all strong pairs between them. |
| Resolver.LinksApart | src/resolver.rs:484-493 | Whether no cannot-link has both ends in one class. |
| Resolver.ResolveInput | src/resolver.rs:389-710 | The union-find algorithm returns exactly the specified clustering, every fact in order, and every error. |
| Resolver.ClosingChecksPass | src/resolver.rs:678-704 | The two final invariant checks hold of every clustering that can reach them, so their errors never occur. |
| ResolverTheorems.MembershipsExact | src/resolver.rs:664-710 | Each record gets exactly one row, and a component is named by the least sort key among its members. |
| ResolverTheorems.PartitionSandwich | src/resolver.rs:448-493 | The partition is coarser than connection by MATCH decisions and finer than connection by MATCH and automatic edges. |
| ResolverTheorems.CannotLinksHold | src/resolver.rs:484-493 | No component contains both ends of a NOT_MATCH decision or of a prohibited pair. |
| ResolverTheorems.AuthorityNeedsMatch | src/resolver.rs:598-634 | Two clustered records with different non-empty authority values for a field are joined by MATCH decisions alone. |
| ResolverTheorems.RejectionsStand | src/resolver.rs:598-634 | The ends of an edge rejected for a cannot-link or an authority conflict end up in different components. |
| ResolverTheorems.FactsConserved | src/resolver.rs:547-663 | Every automatic edge leaves exactly one fact about itself; facts that merged number records minus components. |
| ResolverLaws.SingletonFollows | src/resolver.rs:247-282 | A strong pair admits a single record exactly when, over all strong and review pairs between it and the component, at least two groups agree; an identity pair needs none. |
| ResolverLaws.EstablishedFollows | src/resolver.rs:284-323 | Two larger components merge exactly when two strong cross pairs without a common end rest on different groups, else the reason is the source's. |
| ResolverLaws.AdmissionFollows | src/resolver.rs:598-634 | Cannot-links come first, then authority, then the size rules, each said over records, pairs and decisions alone. |
| ResolverLaws.DecisionsExplained | src/resolver.rs:547-663 | A successful resolution considers the automatic edges in their order, each against the partition it meets, and merges or rejects by these rules; every fact says which. |
| ResolverOutcomes.PreparedExactly | src/resolver.rs:389-447 | Input is taken up exactly when records, sort keys and ends of decisions are as the source asks. |
| ResolverOutcomes.ContradictionExactly | src/resolver.rs:448-493 | The contradiction error is raised exactly when MATCH decisions connect a separated pair. |
| ResolverOutcomes.ResolveSucceeds | src/resolver.rs:389-710 | Sane, uncontradicted input within its limits always resolves. |
| ResolverOrder.ResolveIgnoresOrder | src/resolver.rs:161-215 | With one decision per pair, permuting any of the four input lists changes neither the outcome nor any row or fact. |
| Oracle.IndexInRange | src/resolver/oracle.rs:68-73 | The component found for a record is in the list and contains it. |
| OracleRefinement.ResolverRefinesOracle | src/resolver/oracle.rs:266-479 | Whenever the resolver succeeds, the set-based reference returns the same memberships, keys and facts in order. |
| OracleRefinement.ResolversAgree | src/resolver/oracle.rs:266-479 | With unique records and at most the allowed number of checks, each succeeds exactly when the other does. |
| ResolverLocality.ResolveIsLocal | src/affected.rs:25-95 | If everything resolves and no connecting edge leaves the scope, resolving the scope alone gives exactly the full result's rows and facts in it, even across cannot-links. |
| ResolverLocality.ResolveIsLocalOutside | src/affected.rs:25-95 | The same for the complement of the scope. |
| Affected.Build | src/affected.rs:25-95 | Returns a closed scope around the seeds in which every record is forced, and never fails its own closing checks. |
| Affected.ClosureUnique | src/affected.rs:25-95 | The scope depends only on the seeds and on the sets of memberships and decisions, not on their order. |
| Incremental.AffectedCloses | src/affected.rs:31-70 | The computed scope is closed for the resolver and for the ledger at once. |
| Incremental.IncrementalEqualsFull | src/api/refresh.rs:3984-4024 | Resolving the scope, republishing its part of the ledger and splicing it back equals a full publication, with the same ids drawn. |
| Incremental.AffectedRepublication | src/api/refresh.rs:3907-3930 | The same, for the scope that the closure computes from seeds covering every change. |
| Incremental.FactsSplice | src/api/refresh.rs:4078-4100 | Facts inside the scope come from the scoped resolution, those outside are the old ones, and no fact straddles the boundary. |
| IdentityIncremental.ScopedPublication | src/identity.rs:93-373 | On a ledger settled outside a closed scope, publishing everything equals publishing the scope and splicing. |
| IdentityIncremental.LocalSound | src/api/refresh.rs:3907-3930 | A closed scope cut out of a sound ledger is itself sound in its registry and members. |
| IncrementalAcceptance.ScopedAccepted | src/identity.rs:93-373 | Whenever a full publication is possible, reconciling the scope alone passes every check of ids, members and aliases. |
| IncrementalAcceptance.RepublicationAccepted | src/api/refresh.rs:3907-3930 | So after a change the scoped resolution succeeds and the scoped ledger accepts it. |
| IdentityIncremental.QuiescentDraw | src/identity.rs:178-207 | Publishing a partition the ledger already realises needs no new id. |
| IdentityIncremental.Quiescent | src/identity.rs:298-373 | And changes no row of any of the four tables, at whatever revision. |
| IdentityLedger.NextSound | src/identity.rs:93-373 | Every publication keeps the ledger invariant: active identities are those with an active member, ended ones stay ended, aliases are single-valued and lead forward in time. |
| IdentityLedger.LedgerSound | src/identity.rs:93-373 | The invariant holds after every run of publications from the empty ledger. |
| IdentityLedger.RunSound | src/identity.rs:93-373 | The invariant survives every run from any ledger that has it. |
| IdentityLedger.NextRealises | src/identity.rs:298-344 | After a publication the active records are exactly the resolved ones, and two share an identity exactly when they share a component. |
| IdentityLedger.OldestClaimantKept | src/identity.rs:178-218 | A component anchored by any old identities keeps the one least in (created revision, id); any other gets an id the registry never held. |
| IdentityLaws.IdentityFollowsEarliest | src/identity.rs:135-218 | A record carries a known identity exactly when the identity's earliest staying member is in its component and no older identity can say the same; other components get the next ids supplied, in key order. |
| IdentityLaws.SplitKeepsEarliest | src/identity.rs:532-541 | When members part, the identity stays with its least member by first revision, then sort key, then record. |
| IdentityLaws.PublicationExplained | src/identity.rs:220-344 | Every row of the four tables after a publication, said of where the members went. |
| IdentityLedger.NextExtends | src/identity.rs:230-296 | No registry row, first-membership revision, alias or split is lost, and merged, split and retired rows never change. |
| IdentityLedger.RunExtends | src/identity.rs:230-296 | The same over every run. |
| IdentityLedger.RunRealises | src/identity.rs:298-344 | After every run the ledger realises the last resolved partition. |
| IdentityLineage.TerminalsEnded | src/identity.rs:405-463 | Following moves forward in time ends only at active or retired identities. |
| IdentityLineage.LineageComplete | src/identity.rs:264-296 | A record that stays resolved through a run has its present identity among the successors of its former one. |
| IdentityAliases.ResolveAlias | src/identity.rs:375-403 | Follows aliases to their end and reports duplicate sources and cycles. |
| IdentityAliases.ResolvesAlongChain | src/identity.rs:375-403 | With single-valued aliases an id resolves to another exactly when a repetition-free chain of aliases leads there and stops. |
| IdentityAliases.ValidateAliases | src/identity.rs:556-573 | Accepts exactly the alias lists that are single-valued, between known identities, and free of cycles. |
| IdentityAliases.SoundAliasesValid | src/identity.rs:556-573 | On every sound ledger the alias check passes. |
| IdentityAliases.SoundAliasesResolve | src/identity.rs:375-403 | On a sound ledger every known id resolves to a known identity that is not merged. |
| Identities.RegistryMap | src/identity.rs:465-475 | Indexes the registry, or rejects a repeated id. |
| Identities.MembershipMap | src/identity.rs:477-504 | Indexes the memberships, or rejects repeated records, unknown identities and active members of ended identities. |
| Identities.Components | src/identity.rs:506-530 | Indexes the resolver's rows by record, or rejects a repeated record. |
| Identities.ChooseIds | src/identity.rs:135-218 | Each claimed component keeps its claimant and new ids are drawn in key order; fails exactly when the allocator repeats itself or a known id. |
| Identities.BuildRegistry | src/identity.rs:230-262 | The registry after the publication, row by row. |
| Identities.BuildMembers | src/identity.rs:298-344 | The memberships after the publication: reasons, first and last revisions, activity. |
| Identities.BuildHistory | src/identity.rs:264-296 | Aliases and splits gain exactly the moves of this publication. |
| Identities.Reconcile | src/identity.rs:93-373 | One publication succeeds exactly when its input is acceptable, and returns sorted lists of exactly the specified tables. |
| IdentityLaws.LoadingExplained | src/identity.rs:465-505 | A ledger loads exactly when ids and records are unique, members belong to listed identities, active ones to active identities, and each alias is its source's only one and leads to an end. |
| IdentityLaws.ListsExplained | src/identity.rs:346-366 | The published lists hold exactly the rows of the tables, in the source's orders field by field. |
| Identities.SoundIsAccepted | src/identity.rs:175-207 | On a sound ledger with a fresh allocator and a later revision none of its checks fails. |
| IdentityHistory.CurrentSuccessors | src/identity.rs:405-463 | The frontier walk returns the specified answer and counts work as the specification does. |
| IdentityHistory.QueryAnswers | src/identity.rs:405-463 | With enough work allowed the answer is exactly the ascending list of ended successors, all active or retired. |
| IdentityHistory.QueryFindsMembers | src/identity.rs:405-463 | A member that stayed resolved is found, by its present identity, from the identity it had. |
| GoldenValues.MostCommonValue | src/golden.rs:267-344 | Grouping by value and taking the greatest group selects the first value by count, authority, best source and bytes. |
| GoldenValues.MostCommonIsMostBacked | src/golden.rs:267-344 | The selected value is offered most often, and among those most often with authority. |
| GoldenValues.FirstIsLeast | src/golden.rs:176-265 | The winner of a policy is one of the candidates and none ranks before it. |
| GoldenValues.OverridesDecide | src/golden.rs:364-425 | Agreeing anchored overrides win over every policy; differing ones leave no value and raise the conflict. |
| GoldenLaws.FirstExplained | src/golden.rs:176-265 | Latest, preferred source and first value show an eligible offer that no other beats in date, priority, sort key and record, in the policy's order; with its raw, normalized and canonical value and those who offer the same; or nothing where none is eligible. |
| GoldenLaws.MostCommonExplained | src/golden.rs:267-344 | The value shown has most offers, then most authoritative ones, then the better best source, then the lesser bytes; a tie is noted exactly when another has as many offers. |
| GoldenLaws.OverridesExplained | src/golden.rs:364-425 | Without attached overrides the policy's choice stands, agreeing ones replace it by the earliest of them, differing ones leave no value; loose ones are noted first. |
| GoldenValues.SelectionIgnoresOrder | src/golden.rs:364-425 | Neither the order of the values nor that of the overrides changes a selection. |
| GoldenSelection.SelectAll | src/evaluation.rs:84-151 | Selects for every active identity and golden field from the rows of its active members, and fails exactly on an unsupported policy. |
| GoldenSelection.SelectionsIgnoreRowOrder | src/evaluation.rs:84-151 | With one value per record and field, the order of the rows changes no selection. |
| EvaluationLaws.SelectionsExplained | src/evaluation.rs:84-151 | Exactly the active identities have a value for each field with a rule: by the last rule's policy, from the rows of active members whose source the first rule takes. |
| Evaluation.EvaluateKeepsConsistent | src/evaluation.rs:308-384 | An evaluation leaves a sound ledger that realises its resolution, and a valid review ledger. |
| Evaluation.EvaluateAgain | src/evaluation.rs:308-384 | Evaluating the same inputs at a later revision saves the same identities, golden values, reviews and facts, draws no id and reports no change. |
| EvaluationLaws.InputExplained | src/evaluation.rs:326-361 | The resolver is given each record with its source's authority, and the decisions and pairs whose two ends are records. |
| EvaluationLaws.IssuesExplained | src/evaluation.rs:153-192 | The issues are exactly the rejected edges and the issues of the golden values. |
| EvaluationLaws.ChangeExplained | src/evaluation.rs:370-376 | A change is reported exactly at revision 1 or when some shown column of identities, reviews, golden values or facts differs. |
| Reviews.Reconcile | src/review.rs:200-246 | Takes in the first candidate of each issue, closes what is gone, and sorts: exactly the specified ledger and number of drawn ids. |
| Reviews.ReconcileKeepsValid | src/review.rs:200-246 | Per issue, occurrences stay distinct and without gaps, and only the last can be open. |
| Reviews.ReconcileEvolves | src/review.rs:183-198 | Resolved rows never change, rows keep id, key, occurrence and opening, and a version rises by one exactly when the row changes. |
| Reviews.ReconcileShows | src/review.rs:176-190 | Each current issue has an open row with its latest text. |
| Reviews.OpenKeysAreCurrent | src/review.rs:200-246 | The open issues are exactly the current ones. |
| Reviews.ReconcileAgain | src/review.rs:200-246 | The same issues again change no row and draw no id. |
| Reviews.OccurrencesCount | src/review.rs:266-273 | The occurrences of an issue are 1 to k, each in one row. |
| Reviews.RunFromEmpty | src/review.rs:200-246 | Over every run from no reviews: occurrences 1 to k, rows once resolved stay as they are in every later ledger, and the open issues are those of the last publication. |
| ReviewLaws.LedgerExplained | src/review.rs:200-246 | Field by field: each earlier row follows the first candidate of its issue or is resolved, and one row opens for each issue raised with none open, in issue order with the next ids. |
| Constraint.Find | src/constraint.rs:52-60 | Returns the representative and compresses the path without changing any class. |
| Constraint.Union | src/constraint.rs:62-73 | Joins exactly the two classes. |
| Constraint.BuildClasses | src/constraint.rs:139-171 | Two nodes share a representative exactly when MATCH decisions connect them. |
| Constraint.ContradictionPath | src/constraint.rs:75-130 | For connected ends, a shortest path of genuine MATCH decisions between them. |
| Constraint.ValidateProposedDecision | src/constraint.rs:132-197 | Within the limit, accepts exactly when no NOT_MATCH then joins two MATCH-connected records; otherwise names one and a shortest path. |
| Constraint.ManualComponents | src/constraint.rs:199-235 | Groups the matched records into exactly the MATCH-connected components, each led by its least member. |
| Decisions.DecisionTable.Decide | src/api/steward.rs:264-323 | Succeeds exactly on two different records at the version that was read, with room for the next numbers, when the current decisions with this one stay within the limit and consistent; then supersedes, inserts and raises the epoch, else changes nothing. |
| DecisionLaws.DecisionExplained | src/api/steward.rs:264-323 | Accepted exactly for two records at the version read, with room for the next numbers, within the limit of four units per standing decision and two more, when no chain of joined pairs would connect a separated pair. |
| DecisionLaws.TableExplained | src/api/steward.rs:294-323 | Only the pair's current row stops being current, and the new row names it. |
| Decisions.ConsistentNeverContradicts | src/resolver.rs:448-493 | The resolver never reports a decision contradiction on decisions that a consistent table covers. |
| Candidates.SharedBlockIsMatch | src/candidate/oracle.rs:41-79 | Two records share a blocking key of a channel exactly when the channel matches them. |
| CandidateLaws.MatchesMeans | src/candidate/oracle.rs:41-79 | A channel matches when both records have its fields and the values agree: in all bytes, in the leading characters, or in a long enough whole word. |
| CandidateLaws.WordsOccur | src/candidate/oracle.rs:64-78 | The words of a text are its runs of non-space characters between white space or the ends. |
| Candidates.JoinInjective | src/candidate.rs:562-575 | Length-prefixed composite keys separate field lists shorter than 2^32 bytes. |
| Candidates.JoinSeparatesExactly | src/candidate.rs:570-574 | They separate all lists of fields of bounded length exactly when the bound is below 2^32. |
| Candidates.LongFieldsCollide | src/candidate.rs:570-574 | Two different field lists with one field of 2^32 bytes have the same key. |
| Blocking.ValidateRecords | src/candidate.rs:417-445 | Accepts exactly when no record repeats a field and records and sort keys correspond one to one. |
| Blocking.FillField | src/candidate.rs:536-594 | Every block of a one-field channel holds exactly the records that have its key, once each, and never reports a repeated member. |
| CompositeBlocking.FillComposite | src/candidate.rs:542-577 | The same for channels over several fields, for records that have them all. |
| Blocking.AllPairsAre | src/candidate/oracle.rs:5-39 | The all-pairs search lists a pair exactly when some channel matches it, with all the channels that do. |
| Generation.AddPairs | src/candidate.rs:465-518 | Adds every pair of a block once under the channel, unless the count overflows or the table would exceed its limit. |
| Generation.CountPairs | src/candidate.rs:480-486 | n records make n(n-1)/2 pairs, so the early limit check never rejects what would fit. |
| Generation.GenerateCandidates | src/candidate.rs:520-617 | Succeeds exactly when every block and the number of distinct pairs are within the limits, and then returns what the all-pairs search returns, in the same order and with the same channels. |
| CandidateLaws.ListingExplained | src/candidate.rs:520-617 | The list holds, in record order, exactly the pairs that meet on some channel, with all channels they meet on. |
| CandidateLaws.LimitsExplained | src/candidate.rs:465-518 | The limits hold exactly when no set of records that agree on a channel is too large and no more pairs meet than allowed. |
| CandidateLaws.AcceptedExactly | src/candidate.rs:89-139 | Plans, limits and records are accepted exactly under the source's rules. |
| PairKeys.AutomaticSortKey | src/pair.rs:57-87 | The bytes pushed are those of the specified key. |
| PairKeys.KeysOrderEdges | src/pair.rs:57-87 | Keys order edges by preference: identity first, more groups, fewer rules, higher scores, shorter then smaller sort keys. |
| PairLaws.KeyOrderExplained | src/pair.rs:57-87 | The same over the evidence itself: results, distinct groups of agreeing rules, their scores from the highest, and the sort keys at their first difference. |
| PairKeys.KeysOrderExactly | src/pair.rs:79-79 | For edges with at most a given number of agreeing rules, key order is preference exactly when that number is at most 255. |
| PairKeys.SaturatedCountMisorders | src/pair.rs:79-79 | Beyond 255 rules, an edge with more of them can come before one with fewer. |
| PairKeys.KeysIdentifyPairs | src/pair.rs:57-87 | Up to 255 rules, edges of different pairs have different keys, whatever their scores. |
| PairKeys.KeysAlwaysIdentifyPairs | src/pair.rs:57-87 | At any number of rules, with scores up to 10000 and ordinary sort keys, edges of different pairs have different keys. |
| Levenshtein.DistanceIsLeast | src/comparators/levenshtein.rs:30-50 | The recurrence, which takes the diagonal on equal characters, is the least cost of an edit script from one string to the other. |
| Levenshtein.RowDistance | src/comparators/levenshtein.rs:30-50 | Two row buffers compute the recurrence, whichever string is the longer. |
| Levenshtein.Similarity | src/comparators/levenshtein.rs:7-55 | Succeeds exactly when the work is within the limit, and returns the score of the distance. |
| Levenshtein.ScoreBounds | src/comparators/levenshtein.rs:51-55 | The score lies in 0..10000, is 10000 exactly for equal strings, and is symmetric. |
| Levenshtein.ScoreIsShare | src/comparators/levenshtein.rs:51-55 | The score is the share of the longer string that a least edit leaves, in ten-thousandths rounded down. |
| Levenshtein.Compare | src/comparators/levenshtein.rs:57-84 | Missing values give no evidence; otherwise the score decides agreement by the threshold. |
| ArtifactGraphs.FaultMeans | src/graph_spec.rs:66-112 | An artifact draws no complaint exactly when it is well formed. |
| ArtifactGraphs.ArtifactNodes | src/graph_spec.rs:50-138 | Accepts exactly the well-formed acyclic artifacts; the order is a permutation with dependencies first, the lexicographically least one. |
| ArtifactGraphs.LeastOrderingUnique | src/graph_spec.rs:114-138 | At most one order is least, so listing the nodes differently gives the same order. |
| GraphLaws.NamesLeMeans | src/graph_spec.rs:114-138 | Of two orders the lesser has, at the first difference, the name with the lesser character at its first difference. |
| GraphCompiler.CompileAccepted | src/graph_spec.rs:962-1119 | The graph compiled from any locally valid definition is well formed and acyclic. |
| GraphLaws.NodesExplained | src/graph_spec.rs:962-1119 | The compiled nodes are one per source and field, three per blocking rule and seven of the entity, all refreshed differentially from outside. |
| GraphLaws.DependenciesExplained | src/graph_spec.rs:962-1119 | The dependencies are exactly those the source builds, by logical id. |
| GraphLaws.GoldenRestsOnAll | src/graph_spec.rs:962-1119 | The golden node depends, directly or through others, on every field, every block with its counts and overflow, and every stage of the pairs. |
| PolicyProtocol.RevisionIdentifiesTuple | src/policy.rs:63-73 | Over every interleaving, two states of a case with the same action revision have the same action tuple. |
| PolicyProtocol.RunOneCaseEach | src/schema.rs:417-417 | Over every run a review has at most one case. |
| PolicyProtocol.AppliedIsFresh | src/api/policy_intent.rs:1199-1365 | An applied intent came from an active binding of the policy it names, met a fresh, open, permitted case, kept its action's limits (queue allowed and unprotected, due time in bounds, escalation due and next), raised the revision by one and changed only what it asked for. |
| PolicyProtocol.IntentActsOnWhatWasRead | src/api/policy_intent.rs:1199-1365 | An intent applied after any steps acted on the tuple its caller had read. |
| PolicyProtocol.ReplayChangesNothing | src/api/policy_intent.rs:851-884 | A used request key changes no table and answers from its receipt, or conflicts. |
| PolicyProtocol.ResubmissionIsIdempotent | src/api/policy_intent.rs:851-926 | Sent again after any steps and in any session, a request gets the same receipt and changes nothing. |
| PolicyProtocol.EscalatedAtMostOnce | src/api/policy_intent.rs:1467-1490 | Over every run from empty tables, each case is escalated to each level at most once, across all bindings. |
| PolicyProtocol.AppliedLevelStaysApplied | src/api/policy_intent.rs:1467-1490 | After a level was applied no later request for it is applied, even if it was reduced by hand. |
| PolicyProtocol.EffectsAreOrdered | src/api/policy_intent.rs:1300-1365 | Over every run, applied receipts of a case carry distinct revisions, none later than the case's. |
| PolicyLaws.CallExplained | src/api/policy_intent.rs:928-1098 | A call fails with the first thing wrong with it, and a used key is answered from its receipt before the case is looked at. |
| PolicyLaws.IntentExplained | src/api/policy_intent.rs:1166-1365 | A new request gets the answer of the first objection to it, in the source's order, and changes nothing but receipts; without one it takes its one effect. An escalation is due from the due time on, one level at a time up to the maximum. |
| PolicyLaws.StewardExplained | src/api/policy_intent.rs:671-786 | A steward's change fails with the first objection to it, else sets exactly the controls given and raises the revision if they are new. |
| PolicyLaws.BackfillExplained | src/api/policy.rs:588-718 | A missing opening time is supplied once and permits every action on an open case. |
| PolicyLaws.WaitingExplained | src/api/policy.rs:521-534 | Exactly the entity's open, unmarked cases begin to wait and exactly its waiting ones are released, each at the next revision, or none if one has no room. |
| PolicyLaws.PublishExplained | src/api/policy.rs:219-486 | Publishing a review redraws its case and keeps its controls; versions move only when the review changed in this publication, and the revision exactly when the action tuple does. |
| PolicyLaws.OpenExplained | src/api/policy.rs:219-486 | A review without a case gets one under the next key, with no controls set. |
| PolicyDesk.PolicyTables.SubmitIntent | src/api/policy_intent.rs:928-1366 | In place, the tables and the reply are those of the protocol step. |
| PolicyDesk.PolicyTables.GateLevel | src/api/policy_intent.rs:1467-1490 | Whether any receipt of any binding already applied the level, or it exceeds the binding's maximum. |
| PolicyDesk.PolicyTables.SetCaseControls | src/api/policy_intent.rs:671-786 | In place, the step of a steward; it succeeds exactly at the revision that was read. |
| PolicyDesk.PolicyTables.MarkPendingCases | src/api/policy.rs:521-534 | In place, every open case of the entity that is not yet waiting waits; fails exactly if a changed row's revision would overflow. |
| PolicyDesk.PolicyTables.ProjectPolicyCases | src/api/policy.rs:219-486 | In place, each review is published in order, into its case or a new one, then the waiting ends; it stops at the first step whose revision would overflow and then changes nothing at all. |
| PolicyDesk.PolicyTables.BackfillOpenedAt | src/api/policy.rs:588-718 | In place, succeeds exactly for an authorised, early enough time on a case whose opening was never known and whose revision has room; a refusal changes nothing. |

## Findings

- The count byte of an automatic sort key saturates at 255 (`src/pair.rs:79`). Key order is preference
  exactly up to 255 agreeing rules (`PairKeys.KeysOrderExactly`); beyond that an edge with more agreeing
  rules can sort first (`PairKeys.SaturatedCountMisorders`). Distinctness does not suffer
  (`PairKeys.KeysAlwaysIdentifyPairs`).
- The composite blocking key reduces a field's length to 32 bits (`src/candidate.rs:571`). It separates
  fields exactly below 2^32 bytes (`Candidates.JoinSeparatesExactly`), and blocking equals the all-pairs
  search for such values.
- The resolver's two closing checks (`Resolver.ClosingChecksPass`), the closing checks of the affected
  scope (`Affected.Build`), the alias check and the id checks of a sound ledger
  (`Identities.SoundIsAccepted`) and the repeated-member error of a block (`Blocking.FillField`,
  `CompositeBlocking.FillComposite`) can never fail.
- The set-based reference checks neither unique sort keys nor the limit on component checks;
  `OracleRefinement.ResolversAgree` needs exactly these two as conditions.

## Left out

- Calls into PostgreSQL, roles, privileges and row security: the policy steps see them as facts of a session; the statements are modelled as changes of table rows.
- SQL text, JSON, Unicode normalisation, UTF-8 and the white-space table: text is a sequence of characters, white space is a parameter, and blocking keys of text are its code points.
- Digests: treated as injective, so a receipt keeps the request body itself and a review key is a number.
- The loading loop of `src/api/refresh.rs`: that the seeds cover every changed record, decision and pair is a hypothesis of the incremental theorems.
- Incremental.AffectedRepublication: the splice is that of `src/api/refresh.rs:3984-4024`, a helper of that file's tests; the production path writes the same rows by SQL.
- Widths of review occurrences, versions and membership revisions: unbounded integers; only action revisions and pair counts are bounded.
- Evidence items and reason codes of a pair decision beyond its groups and sort key; decision reasons and the steward's checks of reason text.
- Resolver.ResolveInput: components are values in an array, so moving a component out of its slot is modelled by overwriting it with an empty one.
- Constraint.ValidateProposedDecision: existing decisions are taken in the given order; the query's ORDER BY only decides which contradiction is reported first.
- Evaluation.EvaluateAgain: the rendering of facts and golden issues as review candidates is a parameter, so collisions of rendered keys are not excluded but do not matter.
- Splitting of review lineage (`reconcile_with_splits`), entity deletion, binding grants and receipts' publication tracking: further steps of the same kind.
- `select_golden` in `src/golden.rs`: the tie-break text is not kept; the policy and the kind of choice, which a selection keeps, determine it.
- Presets, cleaners, output views, upgrade scripts and limits parsing: short checks or I/O.

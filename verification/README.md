# TaskLattice Relay, verified cores

A Dafny model of the parts of TaskLattice Relay where a mistake would be hard to see by reading
one function: the Playbook validator and interpreter, the answer-document patch engine, the
store protocol of managed A2A instances, access policies and the gateway permissions derived
from them, one-time access tokens, resource names, and the runner's output stream. Check it with
`dafny verify dfyconfig.toml`.

Every method is proved against a specification function, and the lemmas say what that function
guarantees in terms that do not mention it: paths in a graph, bits of a digest, the document
before a patch, the text before it was cut into chunks. The definitions that the theorems share, such
as what an attempt, a verified token or a resolved decision is, are pinned the same way: each has a
lemma that says it again, independently and with every constant written out.

| files | what they cover |
|---|---|
| `PlaybookGraph`, `PlaybookSchema` | the schema refinement with its depth-first search; accepted means well formed, in terms of paths |
| `PlaybookRuntime`, `PlaybookSafety`, `PlaybookThrows` | the bounded interpreter, its bound-free meaning, what a finished run looks like and why a run throws |
| `PlaybookVisits` | attempts, visits and runs in terms of what operators and schemas say, and how much effort a run can take |
| `CanonicalJson`, `JsonText`, `VersionSnapshot` | the key-sorted normal form, the printed text that is hashed, the digest of a runtime version |
| `JsonReader`, `AnswerHashes` | an independent reader for the printed text, and the exact texts that are hashed |
| `SemanticPath`, `AnswerDocument` | dotted paths and the patch engine |
| `AnswerReordering`, `AnswerDependence` | which operations of a patch may change places, and that no others may |
| `AnswerLaws`, `AnswerPlacement`, `AnswerAcceptance` | what an accepted patch does, where added blocks stand, which patches are accepted |
| `AnswerResult`, `AnswerConditions`, `AnswerRefusals` | the result field by field, acceptance written out on the document, which error is reported and why |
| `AccessPolicy`, `AccessPolicyService`, `CacheAgreement` | deny-overrides evaluation, the service that stores and pushes, cache agreement |
| `PolicyGrants`, `PolicyOperations` | grants read off the rules, and when each operation goes through and what it writes |
| `LostFlags`, `PolicyHistory` | how a stale key loses its mark, what the stored rows keep |
| `AgentGarden`, `AgentGardenRaces` | workers, deletion requests and deletion jobs on one record, statement by statement; when a save outlives its operation |
| `AgentGardenEffects` | what each statement achieves: a deletion request deletes, a completion stamps, a save stores |
| `Bits`, `ResourceIdentity` | the base32 bit accumulator and the names it makes |
| `Base64`, `HermesProxy` | the URL-safe encoding, signed tokens and their exchange |
| `OpenShell`, `OutputTexts` | line splitting, output tail, run outcome, and what they are in terms of the text received |
| `StartCommand` | the start script, its quoting and its cutting into arguments |
| `Sequences`, `WhiteSpace` | facts about sequences, sets and trimming that the others share |

## Where the code and a plain reading of it differ

The model follows the code; each point is a lemma with the exact condition.

- A state update that expects its path to be absent is refused when the path is a name that plain
  objects inherit, such as `constructor` or `toString`: the lookup then finds a function, which
  canonicalises to an empty object (`AnswerLaws.ExpectedAbsence`). The path pattern allows these
  names, and `AnswerAcceptance.SetIfAbsentIff` shows a patch that fails for no other reason.
- `ProxyState.exchange` reads the clock twice. A token is redeemed a second time exactly when its
  expiry falls between the two readings and the replay table is pruned after it
  (`HermesProxy.SpentIsAcceptedIff`, `HermesProxy.RedeemedTwiceAcrossExpiry`); with equal readings
  never (`HermesProxy.RedeemedAtMostOnce`).
- An update that leaves a draft policy a draft drops the recorded reconciliation error without
  pushing anything, so a key that an earlier failed push left out of date may lose its only
  visible mark (`CacheAgreement.DraftUpdateKeepsFlagsIff`, with a run that gets there in
  `LostFlags.FlagIsLost`).
- A rebinding that fails and cannot be undone completely may leave a stale key that no policy marks
  (`CacheAgreement.BrokenRebindingKeepsFlagsIff`, with a case in `LostFlags.RollbackLosesFlag`); it
  tells its caller. No third kind of operation leaves one (`CacheAgreement.OnlyDraftUpdatesDropFlags`).
- A save can take effect after its operation has ended if and only if two workers share an
  operation that is active or still to come and it ended otherwise than by a cancellation under the
  project lock (`AgentGardenRaces.LateSaveIff`). A handler that finds its project deleted writes the
  same status without the lock; a save can follow that one (`AgentGardenRaces.TwoHandlersSaveLate`),
  while none follows a deletion request (`AgentGarden.NoSaveAfterCancellation`).
- Parsing trims the outcomes of transitions, and the interpreter does not trim the outcome an
  operator returns: one with space around it passes the test for blanks and then stops the run
  (`PlaybookThrows.UntrimmedOutcomeStops`).
- More patches may be reordered than those that keep all insertions in order: only insertions at
  one anchor, or anchored on one another, must stay as they are. This is exact
  (`AnswerDependence.ReorderingIff`).
- After all operations of a patch have gone through and a block is left, the closing schema check
  can only fail on the number of blocks (`AnswerLaws.ClosingCheckOnlyCounts`).
- A health probe that succeeds after the run was settled flushes once more; the outcome stays the
  first one (`OpenShell.OutcomeIsFirst`).

## Model

| member | source | states |
|---|---|---|
| `PlaybookGraph.PathIsSimpleOrCyclic` | packages/contracts/src/expert-agents.ts:451-466 | a walk over transitions either visits distinct nodes or proves a cycle reachable from its start |
| `PlaybookGraph.StepShrinksReachable` | apps/expert-agent-runtime/src/playbook-runtime.ts:212-212 | without a reachable cycle every transition leaves strictly fewer nodes ahead, so an unbounded run ends |
| `PlaybookSchema.CycleSearch.Visit` | packages/contracts/src/expert-agents.ts:454-464 | one recursive call keeps the search consistent, leaves `visiting` as it was, settles its node, and descends into fewer unvisited nodes |
| `PlaybookSchema.CycleSearch.VisitEach` | packages/contracts/src/expert-agents.ts:461-461 | visiting the targets of a node in turn settles all of them |
| `PlaybookSchema.CycleSearch.Run` | packages/contracts/src/expert-agents.ts:451-466 | `visited` ends as exactly the nodes reachable from the entrypoint, and the flag is raised exactly when some reachable node lies on a cycle |
| `PlaybookSchema.RevisitIsCycle` | packages/contracts/src/expert-agents.ts:455-458 | meeting a node of the current chain of calls closes a real cycle |
| `PlaybookSchema.FinishNode` | packages/contracts/src/expert-agents.ts:460-463 | a node may pass from `visiting` to `visited` once its targets are settled |
| `PlaybookSchema.NoFlagNoCycle` | packages/contracts/src/expert-agents.ts:451-466 | if the flag stays down there is no cycle within reach: targets finish before their sources |
| `PlaybookSchema.VisitedIsReachable` | packages/contracts/src/expert-agents.ts:451-465 | a closed set of visited reachable nodes that holds the root is the reachable set |
| `PlaybookSchema.TargetsBySource` | packages/contracts/src/expert-agents.ts:444-450 | the index holds, for each source, its targets in listing order |
| `PlaybookSchema.KeysIdentifyTransitions` | packages/contracts/src/expert-agents.ts:408-410 | two transition keys are the same text exactly when source and outcome are the same |
| `PlaybookSchema.DistinctKeysAreDeterministic` | packages/contracts/src/expert-agents.ts:408-417 | comparing the sizes of key set and key list decides determinism |
| `PlaybookSchema.CheckNodes` | packages/contracts/src/expert-agents.ts:369-391 | reports repeated node identifiers, an unknown entrypoint, a missing END node |
| `PlaybookSchema.CheckReferences` | packages/contracts/src/expert-agents.ts:392-407 | reports each transition end that names no node, in order |
| `PlaybookSchema.CheckKeys` | packages/contracts/src/expert-agents.ts:408-417 | reports two transitions of one node on one outcome |
| `PlaybookSchema.CheckEdges` | packages/contracts/src/expert-agents.ts:418-443 | reports each missing failure edge and each transition out of an END node |
| `PlaybookSchema.CheckReachability` | packages/contracts/src/expert-agents.ts:444-487 | reports cycles, an unreachable END and the unreachable nodes, as defined by paths |
| `PlaybookSchema.Validate` | packages/contracts/src/expert-agents.ts:368-488 | the refinement reports exactly the issues a Playbook deserves, in order |
| `PlaybookSchema.DeclarationsAccepted` | packages/contracts/src/expert-agents.ts:369-443 | no issue before the search if and only if the declarations are in order |
| `PlaybookSchema.SearchAccepted` | packages/contracts/src/expert-agents.ts:444-487 | no issue from the search if and only if nothing is cyclic or out of reach |
| `PlaybookSchema.AcceptedIffWellFormed` | packages/contracts/src/expert-agents.ts:368-488 | a Playbook is accepted if and only if it is well formed |
| `PlaybookSchema.IdentifierIffPattern` | packages/contracts/src/expert-agents.ts:90-93 | the identifier rules, character by character, say the same as the pattern: a letter, then words joined by single dashes, at most 160 characters |
| `PlaybookSchema.ParsingDropsSpace` | packages/contracts/src/expert-agents.ts:354-358 | parsing takes the white space off every identifier and outcome, each in its own place, and changes nothing else |
| `PlaybookVisits.ShapeIff` | packages/contracts/src/expert-agents.ts:324-367 | a Playbook has the object shape if and only if its identifiers, counts, limits and outcome lengths lie in the ranges written out |
| `PlaybookRuntime.RunAttempts` | apps/expert-agent-runtime/src/playbook-runtime.ts:138-188 | the retry loop stops at the first success, at an aborted wait or after the last attempt, with the trace of all attempts |
| `PlaybookRuntime.Iterate` | apps/expert-agent-runtime/src/playbook-runtime.ts:129-212 | one iteration of the loop over nodes |
| `PlaybookRuntime.MoveTakesEdge` | apps/expert-agent-runtime/src/playbook-runtime.ts:204-212 | an iteration that goes on follows a transition of the Playbook |
| `PlaybookRuntime.WalkFitsBound` | apps/expert-agent-runtime/src/playbook-runtime.ts:128-128 | a walk in an accepted Playbook visits distinct nodes and is shorter than the node list |
| `PlaybookRuntime.Interpret` | apps/expert-agent-runtime/src/playbook-runtime.ts:125-214 | the bounded loop computes the bound-free run; its final throw is unreachable |
| `PlaybookRuntime.Execute` | apps/expert-agent-runtime/src/playbook-runtime.ts:113-215 | the Playbook is parsed first, which trims identifiers and outcomes and checks sizes; a rejected one is refused with its issues, an accepted one runs as the bound-free semantics says, in every world |
| `WhiteSpace.TrimIsTight` | packages/contracts/src/expert-agents.ts:354-358 | what trimming leaves has no space at its ends and is not changed by trimming again |
| `PlaybookSafety.RunNodeFrom` | apps/expert-agent-runtime/src/playbook-runtime.ts:138-188 | the attempt at which the loop leaves, the failures before it and the trace they left |
| `PlaybookSafety.FinishedIffValidRun` | apps/expert-agent-runtime/src/playbook-runtime.ts:113-215 | a run finishes with a state, an END node and a trace if and only if a chain of valid visits leads there |
| `PlaybookSafety.FinishedRunsAreSimplePaths` | apps/expert-agent-runtime/src/playbook-runtime.ts:128-136 | a finished run follows a simple path of transitions from the entrypoint to an END node, reached by iteration `nodes.length - 1` |
| `PlaybookSafety.FinalStateIsLastSnapshot` | apps/expert-agent-runtime/src/playbook-runtime.ts:151-194 | failed attempts and failed nodes contribute nothing to the final state |
| `PlaybookVisits.AttemptSucceedsIff` | apps/expert-agent-runtime/src/playbook-runtime.ts:150-160 | an attempt succeeds with a snapshot if and only if the input schema accepts the state, the operator resolved with that snapshot, its outcome is more than white space, and the output schema accepts the state of the snapshot |
| `PlaybookVisits.AttemptFailsIff` | apps/expert-agent-runtime/src/playbook-runtime.ts:150-174 | an attempt fails with an error if and only if that is the first thing that goes wrong: input schema, operator, blank outcome, output schema on the new state |
| `PlaybookVisits.WaitRejectsIff` | apps/expert-agent-runtime/src/playbook-runtime.ts:185-185 | a wait is cut short if and only if another attempt is left, the node has a positive delay and the run is aborted meanwhile |
| `PlaybookVisits.VisitAttempts` | apps/expert-agent-runtime/src/playbook-runtime.ts:138-187 | a node is attempted at most as often as its retry setting says, once without one; all of them are used up before it has failed |
| `PlaybookVisits.VisitTrace` | apps/expert-agent-runtime/src/playbook-runtime.ts:141-184 | in the trace of a visit every attempt is announced with its number and time limit and followed by its own error or by the outcome and attributes of the one that succeeded |
| `PlaybookVisits.StatesChain` | apps/expert-agent-runtime/src/playbook-runtime.ts:126-160 | every visit of a run starts in the state the one before left, the first in the initial state, and the last leaves the final one |
| `PlaybookVisits.FinalStateIsAccepted` | apps/expert-agent-runtime/src/playbook-runtime.ts:150-160 | in every finished run the final state is the initial one and no node succeeded, or the output schema of the last node that succeeded accepts it |
| `PlaybookVisits.FinishedStateIsAccepted` | apps/expert-agent-runtime/src/playbook-runtime.ts:113-215 | whatever the world does, the final state of a run is the initial one or accepted by the output schema of some node |
| `PlaybookVisits.EffortIsBounded` | apps/expert-agent-runtime/src/playbook-runtime.ts:128-187 | a finished run makes at most 199 visits, ten attempts in each, and leaves at most 3,981 events |
| `PlaybookThrows.FailureEdgeRoutes` | apps/expert-agent-runtime/src/playbook-runtime.ts:193-212 | the failure edge a node declares to follow is there and is unique |
| `PlaybookThrows.VisitThrowsIff` | apps/expert-agent-runtime/src/playbook-runtime.ts:138-211 | visiting a node throws if and only if a wait was aborted, every attempt failed and no failure edge is followed, or the successful attempt returned an outcome without a transition; the error carries the attempts, the trace and the last cause |
| `PlaybookThrows.UntrimmedOutcomeStops` | apps/expert-agent-runtime/src/playbook-runtime.ts:158-211 | an operator outcome with space around it is not blank and yet never has a transition, since parsing has trimmed those: the run stops |
| `PlaybookThrows.IterationThrowsIff` | apps/expert-agent-runtime/src/playbook-runtime.ts:129-212 | an iteration throws if and only if the run was aborted, the operator is missing or the visit has a cause |
| `PlaybookThrows.ThrownIff` | apps/expert-agent-runtime/src/playbook-runtime.ts:113-215 | a run throws an error if and only if a chain of valid visits leads from the entrypoint to an iteration with a cause for it |
| `PlaybookThrows.OnlyTheWorldStopsARun` | apps/expert-agent-runtime/src/playbook-runtime.ts:128-214 | in every world the node lookup never fails, the bound is never exceeded and no transition is ambiguous; a throw names an abort that happened, a missing operator, a node whose attempts all failed, or an outcome that an attempt returned and no transition takes |
| `CanonicalJson.PropertyOrderIsTotal` | apps/expert-agent-runtime/src/answer-document.ts:24-28 | numeric keys first, then the collation: the order in which members come out is total |
| `CanonicalJson.ArrangeSorts` | apps/expert-agent-runtime/src/answer-document.ts:24-28 | sorting and rebuilding an object lists the same members in ascending property order |
| `CanonicalJson.SameToCanonical` | apps/expert-agent-runtime/src/answer-document.ts:15-29 | values equal up to member order, at every depth, have one canonical form |
| `CanonicalJson.CanonicalToSame` | apps/expert-agent-runtime/src/answer-document.ts:15-29 | values with one canonical form are equal up to member order |
| `CanonicalJson.CanonicalIdempotent` | apps/expert-agent-runtime/src/answer-document.ts:15-29 | canonicalising twice changes nothing |
| `JsonText.SerializeIsPrefixFree` | apps/expert-agent-runtime/src/answer-document.ts:33-33 | a printed value can be cut off from what follows it in one way only |
| `JsonText.CanonicalTextIffSame` | apps/expert-agent-runtime/src/answer-document.ts:31-35 | two values are hashed from one text if and only if they are equal up to member order |
| `CanonicalJson.IndexBoundary` | apps/expert-agent-runtime/src/answer-document.ts:24-28 | keys up to 4294967294 without leading zeros are numeric, 4294967295 and 01 are not |
| `JsonReader.PrintedParses` | apps/expert-agent-runtime/src/answer-document.ts:33-33 | what is printed for a value is JSON text that an independent reader turns back into the value |
| `JsonReader.CanonicalTextParses` | apps/expert-agent-runtime/src/answer-document.ts:31-34 | the hashed text is JSON for the canonical form of the value |
| `AnswerHashes.AbsenceText` | apps/expert-agent-runtime/src/answer-document.ts:37-39 | absence is hashed from the text of an object whose one member `present` is false |
| `AnswerHashes.PresenceText` | apps/expert-agent-runtime/src/answer-document.ts:37-41 | a state value is hashed from `present` true and its own canonical text, in that order |
| `AnswerHashes.BlockText` | apps/expert-agent-runtime/src/answer-document.ts:43-45 | a block is hashed from its metadata, its type as spelled in the document and its value, in that order |
| `VersionSnapshot.PlainIffSupported` | apps/expert-agent-runtime/src/snapshot-integrity.ts:7-25 | the traversal throws exactly on non-finite numbers and on values JSON cannot carry, undefined members of objects excepted |
| `VersionSnapshot.UndefinedIsInvisible` | apps/expert-agent-runtime/src/snapshot-integrity.ts:19-19 | a member without a value leaves no trace in the hashed text |
| `VersionSnapshot.VersionTextIffSame` | apps/expert-agent-runtime/src/snapshot-integrity.ts:27-32 | two snapshots are hashed from one text if and only if they hold the same values |
| `VersionSnapshot.JsonGoesThrough` | apps/expert-agent-runtime/src/snapshot-integrity.ts:7-25 | plain JSON goes through the traversal unchanged |
| `VersionSnapshot.ComesOutStripped` | apps/expert-agent-runtime/src/snapshot-integrity.ts:7-25 | the traversal gives a JSON value if and only if the input is that value with undefined members put into its objects |
| `VersionSnapshot.JsonIsHashedAsItIs` | apps/expert-agent-runtime/src/snapshot-integrity.ts:27-32 | a snapshot of plain JSON is hashed from its own canonical text |
| `SemanticPath.JoinOfSegments` | packages/contracts/src/answer-documents.ts:4-7 | a path is its segments joined by dots |
| `SemanticPath.ValidByCharacters` | packages/contracts/src/answer-documents.ts:4-7 | the path pattern in terms of single characters: letters, digits and dots, a lowercase letter at the start and behind every dot |
| `SemanticPath.DottedPrefix` | apps/expert-agent-runtime/src/answer-document.ts:56-57 | a text starts with a path and a dot if and only if its segments properly extend those of the path |
| `SemanticPath.AffectsIffSegmentPrefix` | apps/expert-agent-runtime/src/answer-document.ts:54-58 | the text test holds if and only if one segment list is a prefix of the other |
| `AnswerDocument.RunOperations` | apps/expert-agent-runtime/src/answer-document.ts:111-176 | the operation loop over its four variables, with the first refusal |
| `AnswerDocument.ApplyAnswerPatch` | apps/expert-agent-runtime/src/answer-document.ts:73-187 | the whole engine: checks in order, operations, closing checks, result |
| `AnswerDocument.EffectKeepsAgreement` | apps/expert-agent-runtime/src/answer-document.ts:118-176 | after every operation `order` lists each block of the map once |
| `AnswerDocument.RunKeepsAgreement` | apps/expert-agent-runtime/src/answer-document.ts:115-184 | hence the final lookups are total and identifiers stay unique |
| `AnswerReordering.InsertWithout` | apps/expert-agent-runtime/src/answer-document.ts:154-175 | a removal and an insertion not anchored on the removed block commute on the order list |
| `AnswerReordering.CheckUnaffected` | apps/expert-agent-runtime/src/answer-document.ts:118-174 | an operation is judged alike before and after an independent one |
| `AnswerReordering.EffectsCommute` | apps/expert-agent-runtime/src/answer-document.ts:118-176 | independent operations have the same joint effect in either order |
| `AnswerReordering.UniquenessIsDistinctTargets` | packages/contracts/src/answer-documents.ts:148-172 | the two uniqueness rules hold if and only if no two operations share a path or a block |
| `AnswerReordering.InsertsCommute` | apps/expert-agent-runtime/src/answer-document.ts:154-164 | two insertions at different anchors commute unless one is the anchor of the other |
| `AnswerReordering.ReorderedPatch` | apps/expert-agent-runtime/src/answer-document.ts:73-187 | reordering a patch changes neither acceptance nor result, if insertions at one anchor keep their order and no insertion or removal changes places with an insertion anchored on its block |
| `AnswerDependence.CrossingRemovalFails` | apps/expert-agent-runtime/src/answer-document.ts:154-159 | an insertion fails wherever it stands behind the removal of its anchor |
| `AnswerDependence.AnchorTooLateFails` | apps/expert-agent-runtime/src/answer-document.ts:154-159 | an insertion fails wherever it stands in front of the insertion of its anchor |
| `AnswerDependence.LaterStandsFirst` | apps/expert-agent-runtime/src/answer-document.ts:154-164 | of two insertions at one anchor, wherever they stand in the patch, the later one stands first in the result |
| `AnswerDependence.RunReorderingIff` | apps/expert-agent-runtime/src/answer-document.ts:118-176 | a rearrangement of operations that go through has the same outcome if and only if dependent ones keep their order; otherwise it fails or orders the blocks differently |
| `AnswerDependence.ReorderingIff` | apps/expert-agent-runtime/src/answer-document.ts:73-187 | a rearrangement of an accepted patch gives the same document if and only if dependent operations keep their order |
| `AnswerAcceptance.RunsIff` | apps/expert-agent-runtime/src/answer-document.ts:118-176 | the operations go through if and only if each is in order when judged against the document before the patch, and its anchor is there at that point |
| `AnswerAcceptance.RunCounts` | apps/expert-agent-runtime/src/answer-document.ts:116-175 | the number of blocks changes by insertions minus removals |
| `AnswerAcceptance.AcceptedIff` | apps/expert-agent-runtime/src/answer-document.ts:73-187 | a patch is accepted if and only if a condition holds that mentions only the patch and the document before it |
| `AnswerConditions.DocumentShapeIff` | packages/contracts/src/answer-documents.ts:79-100 | a document is in shape if and only if it has one to a thousand blocks, no two with one identifier, and matches the path pattern throughout |
| `AnswerConditions.PatchShapeIff` | packages/contracts/src/answer-documents.ts:129-160 | a patch is in shape if and only if it has one to two thousand operations, no two setting one path or naming one block, and matches the path pattern throughout |
| `AnswerConditions.RewrittenIffReached` | apps/expert-agent-runtime/src/answer-document.ts:89-109 | an accepted patch that sets state rewrites a block if and only if one of its dependencies lies on one path with a path that is set, segment by segment |
| `AnswerConditions.AcceptedAsWritten` | apps/expert-agent-runtime/src/answer-document.ts:73-187 | acceptance written out on the blocks of the document and the operations of the patch: hashes, revisions, reached blocks, anchors and the final count |
| `AnswerRefusals.FailsWithFirst` | apps/expert-agent-runtime/src/answer-document.ts:118-176 | the operations fail with the error of the first one that is refused when judged against the working copy before all of them |
| `AnswerRefusals.ReasonIff` | apps/expert-agent-runtime/src/answer-document.ts:118-176 | each error means what it says about the operation and the document: changed state, unknown block, changed or skipped revision, unrelated block, bad hash, existing block, bad anchor |
| `AnswerRefusals.RefusedFor` | apps/expert-agent-runtime/src/answer-document.ts:111-187 | a patch that passes the early checks is refused for its first operation that is not in order, with that reason, and otherwise for leaving no block or more than a thousand |
| `AnswerResult.EarlyRefusals` | apps/expert-agent-runtime/src/answer-document.ts:77-109 | of several reasons to turn a patch away before its operations, the first in the order of the checks is reported |
| `AnswerResult.FirstBadHashIsFirst` | apps/expert-agent-runtime/src/answer-document.ts:60-87 | the block reported for its hash is the first one that does not carry the hash of its content |
| `AnswerResult.MissingAre` | apps/expert-agent-runtime/src/answer-document.ts:99-109 | a block is reported as not recomputed if and only if a path that is set affects it and no operation changes it |
| `AnswerLaws.AllCarriedOut` | apps/expert-agent-runtime/src/answer-document.ts:118-176 | after the operations the working copy holds what each of them gives its path or block; none undoes another |
| `AnswerResult.SetPathsInResult` | apps/expert-agent-runtime/src/answer-document.ts:119-128 | in the result of an accepted patch every path it sets holds the value and the provenance it was given |
| `AnswerResult.OtherPathsInResult` | apps/expert-agent-runtime/src/answer-document.ts:111-128 | in the result every other path, with its provenance, is as it was in the document |
| `AnswerResult.ResultHeader` | apps/expert-agent-runtime/src/answer-document.ts:179-186 | the result keeps identifier and status, is one revision further, and takes metadata from the patch where it has them and from the document otherwise |
| `AnswerResult.ChangedBlocksInResult` | apps/expert-agent-runtime/src/answer-document.ts:130-184 | replacements and insertions are in the result, removed identifiers are not |
| `AnswerResult.ResultBlocksComeFrom` | apps/expert-agent-runtime/src/answer-document.ts:115-184 | every block of the result is an untouched block of the document or was put there by an operation |
| `AnswerResult.ExpectedValue` | apps/expert-agent-runtime/src/answer-document.ts:120-125 | an update that expects a value goes through if and only if the path holds an equal one |
| `AnswerPlacement.AddedBlocksStand` | apps/expert-agent-runtime/src/answer-document.ts:154-164 | in the result an added block stands behind its anchor, if that is still there, or at the front, and everything between was added by the same patch |
| `AnswerLaws.RunFrame` | apps/expert-agent-runtime/src/answer-document.ts:118-176 | a block no operation targets stays as it is |
| `AnswerLaws.RunStateFrame` | apps/expert-agent-runtime/src/answer-document.ts:119-129 | state and provenance of a path that no operation sets stay as they are |
| `AnswerLaws.ResultOrder` | apps/expert-agent-runtime/src/answer-document.ts:184-184 | the blocks of the result stand in the final order, without repetition |
| `AnswerLaws.ClosingCheckOnlyCounts` | apps/expert-agent-runtime/src/answer-document.ts:178-186 | the closing schema check fails only on too many blocks |
| `AnswerLaws.SelectiveRecomputation` | apps/expert-agent-runtime/src/answer-document.ts:89-109 | a patch that sets state rewrites exactly the blocks whose dependencies are affected; every other one is in the result unchanged |
| `AnswerLaws.UntouchedBlocks` | apps/expert-agent-runtime/src/answer-document.ts:115-184 | a block that is neither replaced nor removed is in the result unchanged |
| `AnswerLaws.BlockRevisions` | apps/expert-agent-runtime/src/answer-document.ts:130-155 | a block present before and after is identical or one revision further |
| `AnswerLaws.AcceptedHashes` | apps/expert-agent-runtime/src/answer-document.ts:60-65 | every block of an accepted result carries the hash of its content |
| `AnswerLaws.ContentHashIdentifies` | apps/expert-agent-runtime/src/answer-document.ts:43-45 | with an injective digest, equal content hashes mean equal type, value and metadata |
| `AnswerLaws.StateHashIdentifies` | apps/expert-agent-runtime/src/answer-document.ts:37-41 | with an injective digest, a state hash tells values apart, and absence from every value |
| `AnswerLaws.ExpectedAbsence` | apps/expert-agent-runtime/src/answer-document.ts:119-125 | an update expecting absence passes if and only if the path is absent and its name is not inherited |
| `AnswerAcceptance.InheritedIsValid` | packages/contracts/src/answer-documents.ts:4-7 | the path pattern lets the inherited names through |
| `AnswerAcceptance.InheritedAbsenceIsRefused` | apps/expert-agent-runtime/src/answer-document.ts:119-125 | a patch that sets an absent path of an inherited name and expects it to be absent is refused, whatever else it does |
| `AnswerAcceptance.SetIfAbsentIff` | apps/expert-agent-runtime/src/answer-document.ts:119-125 | a patch that only sets a valid absent path of a document, expecting it to be absent, is refused with a changed-state error if and only if the name is inherited |
| `AnswerLaws.RunKeepsOrder` | apps/expert-agent-runtime/src/answer-document.ts:154-175 | operations keep the relative order of blocks they do not insert or remove |
| `AnswerLaws.SurvivorsKeepOrder` | apps/expert-agent-runtime/src/answer-document.ts:116-184 | surviving blocks keep their relative order |
| `AnswerLaws.RevisionsCountPatches` | apps/expert-agent-runtime/src/answer-document.ts:82-86 | over any run of patches the revision counts the accepted ones, and at most one patch per base revision is accepted |
| `AccessPolicy.EffectiveInstanceObjectPermissions` | apps/control/server/access-policies/access-policy-service.ts:34-75 | the evaluation loop |
| `AccessPolicy.GrantedIff` | apps/control/server/access-policies/access-policy-service.ts:47-65 | a tool is granted if and only if it is discovered, within the ceiling, allowed by some active bound policy and denied by none |
| `PolicyGrants.ResolvedIff` | apps/control/server/access-policies/access-policy-service.ts:24-32 | a rule decides as its first tool rule for the tool says, unless that inherits or is not there; then as its default says |
| `PolicyGrants.DecidesAsItSays` | apps/control/server/access-policies/access-policy-service.ts:24-32 | with unique tool names a rule resolves to a decision if and only if it holds a tool rule with that decision, or at most an inheriting one and its default is that decision |
| `PolicyGrants.GrantedAsWritten` | apps/control/server/access-policies/access-policy-service.ts:40-65 | a tool is granted if and only if it is discovered, the ceiling is empty or lists it, some active bound policy says ALLOW and none says DENY, read off the rules |
| `PolicyGrants.DeniedIsNeverGranted` | apps/control/server/access-policies/access-policy-service.ts:55-61 | a tool that a tool rule of an active bound policy denies is never granted, whatever else allows it |
| `PolicyGrants.ServersInOrder` | apps/control/server/access-policies/access-policy-service.ts:47-68 | the servers with a granted tool are listed in the order in which they were selected |
| `PolicyGrants.ToolsInOrder` | apps/control/server/access-policies/access-policy-service.ts:55-64 | the granted tools of a server are listed once each, in the order of their discovery |
| `PolicyGrants.UniqueKeepsFirsts` | apps/control/server/access-policies/access-policy-service.ts:20-22 | repetitions are dropped in favour of the first appearance |
| `PolicyGrants.InstanceGrants` | apps/control/server/access-policies/access-policy-service.ts:206-227 | an instance may use a tool under these conditions on the stored policies, and only on servers it has selected |
| `PolicyGrants.InstanceStores` | apps/control/server/access-policies/access-policy-service.ts:217-227 | its vector stores are those of the sources it has selected |
| `AccessPolicy.ServerListedIff` | apps/control/server/access-policies/access-policy-service.ts:62-68 | a server is listed if and only if one of its tools is granted |
| `AccessPolicy.GroupListedIff` | apps/control/server/access-policies/access-policy-service.ts:69-71 | an access group is listed, once, if and only if it belongs to a server with a granted tool |
| `AccessPolicy.EffectiveByRuleSet` | apps/control/server/access-policies/access-policy-service.ts:40-51 | order and repetition of policies, bindings and rules are immaterial |
| `AccessPolicy.ToolRuleOrder` | apps/control/server/access-policies/access-policy-service.ts:24-32 | with unique tool names the order of tool rules is immaterial |
| `AccessPolicy.FindDecisionIff` | apps/control/server/access-policies/access-policy-service.ts:28-30 | with unique tool names the rule found is the one there is |
| `AccessPolicy.UniqueKeepsElements` | apps/control/server/access-policies/access-policy-service.ts:20-22 | removing repetitions keeps all values |
| `AccessPolicyService.SamePermissions` | apps/control/server/access-policies/access-policy-service.ts:206-227 | permissions depend on the rows only through the rules of active bound policies |
| `AccessPolicyService.Service.SavePolicy` | apps/control/server/access-policies/access-policy-store.ts:39-69 | row and version are written together; the version names the actor, a summary and the date of the row |
| `AccessPolicyService.Service.CreatePolicy` | apps/control/server/access-policies/access-policy-service.ts:94-120 | creation with its refusals; the row starts at revision one with its creator and dates and is saved with its version |
| `AccessPolicyService.Service.UpdatePolicy` | apps/control/server/access-policies/access-policy-service.ts:122-160 | update with a new revision, date and summary, pushing only if the policy was or becomes active |
| `AccessPolicyService.Service.ReconcilePolicy` | apps/control/server/access-policies/access-policy-service.ts:259-290 | keys are pushed one by one until done or until the gateway throws; the row records the time or the error |
| `AccessPolicyService.Service.DeletePolicy` | apps/control/server/access-policies/access-policy-service.ts:166-178 | deletion of inactive, unbound policies only |
| `AccessPolicyService.Service.AssignPolicies` | apps/control/server/instances/instance-service.ts:788-851 | rebinding pushes first; a refused push changes nothing, a failed save is undone, and an incomplete undoing is reported |
| `CacheAgreement.PushedKey` | apps/control/server/access-policies/access-policy-service.ts:263-272 | each pushed key carries the current permissions of its instance |
| `CacheAgreement.UnpushedKey` | apps/control/server/access-policies/access-policy-service.ts:263-272 | every other key is left alone |
| `CacheAgreement.ReconcileBound` | apps/control/server/access-policies/access-policy-service.ts:259-290 | a bound instance is up to date afterwards, or the policy carries the error |
| `CacheAgreement.ReconcileUnbound` | apps/control/server/access-policies/access-policy-service.ts:259-290 | an unbound instance is up to date exactly if it was |
| `CacheAgreement.CreateKeepsFresh` | apps/control/server/access-policies/access-policy-service.ts:94-120 | creating, even as active, needs no push |
| `CacheAgreement.DeleteKeepsFresh` | apps/control/server/access-policies/access-policy-service.ts:166-178 | deleting needs no push |
| `CacheAgreement.UpdateKeepsFresh` | apps/control/server/access-policies/access-policy-service.ts:122-160 | an update leaves every key up to date that was so before, pushing or not, and those bound to a policy it pushes in any case |
| `CacheAgreement.AssignKeepsFresh` | apps/control/server/instances/instance-service.ts:788-851 | a rebinding touches no other key; its own is up to date afterwards unless binding and key were left apart by an incomplete rollback, and then if and only if both bindings give the same permissions |
| `CacheAgreement.RunsKeepAgreement` | apps/control/server/access-policies/access-policy-service.ts:94-290 | over every run in which the pushes of updates succeed and failed rebindings are undone, each pushed key equals the evaluation of the policies as they are |
| `CacheAgreement.PushingUpdateKeepsFlags` | apps/control/server/access-policies/access-policy-service.ts:259-290 | an update that pushes keeps every stale key marked, however many pushes fail |
| `CacheAgreement.DraftUpdateKeepsFlagsIff` | apps/control/server/access-policies/access-policy-service.ts:143-160 | an update that keeps a draft a draft keeps every stale key marked if and only if no stale key relied on that policy's error alone |
| `CacheAgreement.OnlyDraftUpdatesDropFlags` | apps/control/server/access-policies/access-policy-service.ts:94-290 | no other operation leaves a stale key unmarked, except a rebinding whose rollback is incomplete, which reports it |
| `CacheAgreement.BrokenRebindingKeepsFlagsIff` | apps/control/server/instances/instance-service.ts:817-850 | a rebinding whose rollback is incomplete leaves every stale key marked if and only if both bindings give the same permissions or the instance is left with a marked policy |
| `LostFlags.DraftThenRenameIff` | apps/control/server/access-policies/access-policy-service.ts:143-160 | drafting an active policy with a refused push and then renaming it leaves an instance with a stale unmarked key if and only if drafting changes its permissions and none of its other policies is marked |
| `LostFlags.FlagIsLost` | apps/control/server/access-policies/access-policy-service.ts:143-160 | such a state is reached from agreement: the instance keeps a tool that no active policy grants, and no policy shows an error |
| `LostFlags.RollbackLosesFlag` | apps/control/server/instances/instance-service.ts:817-850 | such a rebinding is reached from agreement: the old bindings are back, the key is not, and no policy shows an error |
| `PolicyHistory.ValidIffRulesOk` | apps/control/server/access-policies/access-policy-service.ts:229-257 | validation passes if and only if servers are distinct and known, and tools are distinct and discovered |
| `PolicyOperations.ValidAsWritten` | apps/control/server/access-policies/access-policy-service.ts:229-257 | validation passes if and only if no two rules share a server and each names a known server and, once each, tools that its last definition has discovered |
| `PolicyOperations.FirstBadRule` | apps/control/server/access-policies/access-policy-service.ts:239-256 | validation complains of the first rule that is not in order: of its server, then of a repeated tool, then of an undiscovered one |
| `PolicyOperations.CreateIff` | apps/control/server/access-policies/access-policy-service.ts:94-120 | a policy is created if and only if its rules are in order and its name is free up to case; a refusal changes nothing |
| `PolicyOperations.CreateWrites` | apps/control/server/access-policies/access-policy-service.ts:106-119 | the new row holds the input, the first revision, its creator and the date, and its version is a copy; no other row, instance or key changes |
| `PolicyOperations.UpdateIff` | apps/control/server/access-policies/access-policy-service.ts:122-142 | an update goes through if and only if the policy exists and the rules and the name it ends up with are in order and free; a refusal changes nothing and names the first reason |
| `PolicyOperations.UpdateWrites` | apps/control/server/access-policies/access-policy-service.ts:127-160 | the row takes what the change gives and keeps the rest, one revision further and newly dated; one version is added, and no other row and no instance changes |
| `PolicyOperations.UpdatePushes` | apps/control/server/access-policies/access-policy-service.ts:157-159 | keys are pushed by an update if and only if the policy was active or is active now |
| `PolicyOperations.KeyIsPushed` | apps/control/server/access-policies/access-policy-service.ts:259-290 | the keys of the instances bound to the policy are pushed in listing order, each with what its instance may use now, until the gateway refuses |
| `PolicyOperations.DeleteIff` | apps/control/server/access-policies/access-policy-service.ts:166-178 | a policy is deleted if and only if it exists, is not active and is bound to no instance |
| `PolicyOperations.BindingsIff` | apps/control/server/access-policies/access-policy-service.ts:180-204 | bindings are accepted if and only if there is one, none is repeated and each is an active policy |
| `PolicyOperations.BindingErrors` | apps/control/server/access-policies/access-policy-service.ts:180-204 | the error for bindings is the first that applies: none, a repetition, an unknown policy, an inactive one |
| `PolicyOperations.AssignWrites` | apps/control/server/instances/instance-service.ts:788-851 | a rebinding that goes through gives the instance its new bindings and its key what they allow; one that is refused or undone leaves the bindings |
| `PolicyHistory.RunsKeepRows` | apps/control/server/access-policies/access-policy-service.ts:94-178 | in every run names stay unique up to case, rules stay valid, and each policy equals the last entry of a gapless version log that keeps its creator and creation date and is dated as it was written |
| `PolicyHistory.SummaryIff` | apps/control/server/access-policies/access-policy-service.ts:307-316 | the summary of an update says that nothing changed if and only if name, status and rules are as before |
| `PolicyHistory.SummaryText` | apps/control/server/access-policies/access-policy-service.ts:307-316 | the sentences of the summary: the new status, the rules, the name, in that order, one space between them |
| `PolicyHistory.StoredRulesAreOrderFree` | apps/control/server/access-policies/access-policy-service.ts:24-32 | for every stored rule the order of tool rules is immaterial |
| `AgentGarden.StepKeepsInv` | apps/control/server/agent-garden/agent-garden-store.ts:169-277 | each statement keeps the lock exclusive, deletion selections live and passed operation checks uncancelled |
| `AgentGarden.TombstoneIsFinal` | apps/control/server/agent-garden/agent-garden-store.ts:431-450 | no statement clears or changes a tombstone, the kind or the catalogue agent beside it |
| `AgentGarden.TombstonedPayload` | apps/control/server/agent-garden/agent-garden-store.ts:169-277 | a tombstoned payload changes through completion only, and then shows it |
| `AgentGarden.DeletionWins` | apps/control/server/agent-garden/agent-garden-service.ts:857-1001 | in every interleaving a tombstone is kept as it is, with its payload or that of a completed deletion |
| `AgentGardenEffects.RequestSelects` | apps/control/server/projects/resource-operation-service.ts:67-71 | a deletion request selects the rows it was asked for that are A2A and live, with their payloads |
| `AgentGardenEffects.RequestTombstones` | apps/control/server/projects/resource-operation-service.ts:72-78 | a committed request tombstones every row it selected at the clock of the commit, shows it as DESTROYING with the payload it had read, and leaves all others alone |
| `AgentGardenEffects.RequestCancels` | apps/control/server/projects/resource-operation-service.ts:79-93 | it cancels exactly those operations it names that are pending, running or in retry |
| `AgentGardenEffects.SelectedStaysDeleted` | apps/control/server/projects/resource-operation-service.ts:67-78 | a row selected by a request that commits keeps that tombstone and shows DESTROYING in every later state |
| `AgentGardenEffects.DeletionDeletes` | apps/control/server/projects/resource-operation-service.ts:38-95 | an A2A row that is live and asked for when a request selects is tombstoned at the clock of its commit, in every later state and whatever happens in between |
| `AgentGardenEffects.CompletionStamps` | apps/control/server/agent-garden/agent-garden-store.ts:431-450 | a completion keeps the tombstone that is there or sets one now, and stamps the payload the job had read as destroyed and complete |
| `AgentGardenEffects.JobStarts` | apps/control/server/agent-garden/agent-garden-service.ts:857-916 | a deletion job stops at once if its instance is gone, is none or has been completed before |
| `AgentGardenEffects.SaveTakesEffectIff` | apps/control/server/agent-garden/agent-garden-store.ts:215-277 | a save takes effect, with an owner, on an instance that is new or alive, and without one only on a live A2A instance |
| `AgentGardenEffects.SaveStores` | apps/control/server/agent-garden/agent-garden-store.ts:215-277 | a save that takes effect stores its payload under its identifier, as A2A and without tombstone; one that does not changes no row |
| `AgentGardenEffects.OperationCheckPasses` | apps/control/server/agent-garden/agent-garden-store.ts:195-205 | a worker gets past its operation check if and only if the operation is pending, running or in retry |
| `AgentGardenEffects.RecordCheckPasses` | apps/control/server/agent-garden/agent-garden-store.ts:188-192 | it gets past its record check if and only if the record carries no tombstone |
| `AgentGardenEffects.StatusStepIff` | apps/control/server/workers/resource-operation-task.ts:30-91 | which status of an operation may follow which: from pending, running and retry only, to completed and withdrawn from running only |
| `AgentGardenEffects.DeletionIsPossible` | apps/control/server/projects/resource-operation-service.ts:38-95 | while the lock is free a waiting request can delete any live A2A instance, in three statements |
| `AgentGardenEffects.CompletionIsPossible` | apps/control/server/agent-garden/agent-garden-store.ts:431-450 | likewise a deletion job can complete the deletion of any A2A instance that is not completely deleted |
| `AgentGardenEffects.SaveIsPossible` | apps/control/server/agent-garden/agent-garden-store.ts:169-180 | likewise an idle worker of an active operation can get as far as updating any live A2A instance, and the update takes effect |
| `AgentGarden.TombstonesAlwaysShow` | apps/control/server/projects/resource-operation-service.ts:67-78 | an instance that has a tombstone shows as being destroyed throughout |
| `AgentGarden.NoSaveAfterCancellation` | apps/control/server/agent-garden/agent-garden-store.ts:174-179 | in every run from a quiet start, no save takes effect for an operation cancelled by a deletion request or instead of being claimed |
| `AgentGarden.EndIsFinal` | apps/control/server/workers/resource-operation-task.ts:36-90 | an operation that has ended keeps its status |
| `AgentGarden.StepKeepsChecksActive` | apps/control/server/agent-garden/agent-garden-store.ts:195-205 | without two workers on a usable operation, a passed operation check stays true until the save is written |
| `AgentGardenRaces.SavesAreForActiveOperations` | apps/control/server/agent-garden/agent-garden-store.ts:195-205 | without two workers on a usable operation, saves take effect only while the operation is pending, running or in retry |
| `AgentGardenRaces.LateSaveIff` | apps/control/server/workers/resource-operation-task.ts:162-200 | from a quiet start a save can take effect for an operation that ended in a given way if and only if two workers share an operation that is active or still to come and the end is not a cancellation under the project lock |
| `AgentGardenRaces.TwoHandlersSaveLate` | apps/control/server/workers/resource-operation-task.ts:162-200 | the shortest such run: one handler saves after the other has completed, failed or, its project being gone, cancelled the operation |
| `Bits.MaskIsMod` | packages/contracts/src/resource-identity.ts:30-30 | masking with ones is the remainder |
| `Bits.FillIsSum` | packages/contracts/src/resource-identity.ts:25-25 | shifting and filling is multiplication and addition |
| `Bits.BitsSplit` | packages/contracts/src/resource-identity.ts:24-33 | the number written by a bit string splits at every position |
| `Bits.WholeByte` | packages/contracts/src/resource-identity.ts:24-25 | eight aligned bits write the byte |
| `ResourceIdentity.ExtractSymbol` | packages/contracts/src/resource-identity.ts:27-31 | shift and mask give the next five digest bits and leave the rest, below `2^bits` |
| `ResourceIdentity.AbsorbByte` | packages/contracts/src/resource-identity.ts:24-26 | the accumulator takes in the next eight bits and never needs more than twelve |
| `ResourceIdentity.ExtractOne` | packages/contracts/src/resource-identity.ts:28-30 | one pass writes the next symbol and leaves the rest of the bits, below `2^bits` |
| `ResourceIdentity.ExtractSymbols` | packages/contracts/src/resource-identity.ts:27-31 | the inner loop writes symbols until fewer than five bits are left or thirteen are written |
| `ResourceIdentity.HashSymbols` | packages/contracts/src/resource-identity.ts:20-33 | the two loops write the thirteen symbols of the digest |
| `ResourceIdentity.KubernetesResourceName` | packages/contracts/src/resource-identity.ts:16-35 | an empty identity is refused, a canonical one reused, any other named by the symbols of its digest |
| `ResourceIdentity.NamesAreCanonical` | packages/contracts/src/resource-identity.ts:18-34 | a name is a canonical identifier of its type |
| `ResourceIdentity.NamingIsIdempotent` | packages/contracts/src/resource-identity.ts:15-19 | naming a name gives it back |
| `ResourceIdentity.CanonicalIff` | packages/contracts/src/resource-identity.ts:5-19 | which identities count as canonical: the prefix of the type, a dash and thirteen characters from a to z and 2 to 7 |
| `ResourceIdentity.NameIs` | packages/contracts/src/resource-identity.ts:16-35 | a name is the identity itself, or the prefix of its type and thirteen symbols, each standing for five bits of the digest |
| `ResourceIdentity.TypesKeepApart` | packages/contracts/src/resource-identity.ts:5-10 | resources of different types never share a name |
| `ResourceIdentity.SharedNameIffSharedBits` | packages/contracts/src/resource-identity.ts:20-34 | two hashed identities share a name if and only if their digests agree in the first 65 bits |
| `Base64.DecodeText` | runtime-integrations/hermes-webui-auth-proxy.py:48-49 | symbols of the alphabet are fed to the decoder one by one, whatever follows |
| `Base64.UrlSafeRoundTrip` | runtime-integrations/hermes-webui-auth-proxy.py:48-53 | decoding the unpadded URL-safe encoding gives the bytes back, for every length |
| `Base64.PaddedRoundTrip` | apps/runner/src/openshell.ts:850-850 | the same for the padded standard alphabet |
| `Base64.StrictRoundTrip` | apps/runner/src/openshell.ts:850-850 | the same for a decoder that refuses foreign characters and incomplete groups |
| `Base64.KnownAnswers` | runtime-integrations/hermes-webui-auth-proxy.py:48-53 | the encodings of the first examples in section 10 of RFC 4648 |
| `Base64.AlphabetsDiffer` | runtime-integrations/hermes-webui-auth-proxy.py:48-53 | the two alphabets differ in their last two symbols and nowhere else |
| `Base64.DecoderTolerance` | runtime-integrations/hermes-webui-auth-proxy.py:48-49 | the decoder skips foreign characters and padding that completes nothing, stops at padding that completes a group, and refuses an open group |
| `Base64.EncodingIsUrlSafe` | runtime-integrations/hermes-webui-auth-proxy.py:52-53 | the encoding holds nothing that a URL query would have to escape |
| `HermesProxy.SignedTokenVerifies` | runtime-integrations/hermes-webui-auth-proxy.py:56-128 | a signed token verifies if and only if its claims hold, and gives them back |
| `HermesProxy.VerifiesIff` | runtime-integrations/hermes-webui-auth-proxy.py:94-128 | a token verifies with claims if and only if it is a payload text without dots, a dot and a text that decodes to the keyed hash of the payload text under the secret, and the payload decodes to those claims and they are good, with all limits written out |
| `HermesProxy.ForgedIsRefused` | runtime-integrations/hermes-webui-auth-proxy.py:96-103 | whatever a payload claims, with a signature text that does not decode to its keyed hash it is refused |
| `WhiteSpace.TrimDropsSpace` | apps/runner/src/openshell.ts:1150-1150 | trimming drops whatever space stands around the secret |
| `HermesProxy.SetParameterReads` | apps/runner/src/openshell.ts:1171-1173 | the token parameter reads back as set, once, and all other parameters stay |
| `HermesProxy.ValueIsFirst` | apps/runner/src/openshell.ts:1171-1173 | the value of a parameter is that of its first occurrence |
| `HermesProxy.SetParameterPlace` | apps/runner/src/openshell.ts:1171-1173 | the parameter that is set stands where the first of its name stood, or at the end |
| `HermesProxy.EncodedTokenIsQuerySafe` | apps/runner/src/openshell.ts:1168-1173 | no character of a token is changed by the encoding of a query |
| `HermesProxy.IssuedTokenWindow` | apps/runner/src/openshell.ts:1143-1174 | a dashboard URL is refused for a short secret or an endpoint that is no URL; otherwise only its token parameter changes, and the token read back verifies as access exactly within its window and never as a session, for a proxy with the same secret up to surrounding space |
| `HermesProxy.ProxyState.ExchangeToken` | runtime-integrations/hermes-webui-auth-proxy.py:130-152 | verify, prune, refuse or record, and mint |
| `HermesProxy.ExchangeMintsIff` | runtime-integrations/hermes-webui-auth-proxy.py:130-152 | a session is minted if and only if the token verifies as access and its nonce is not in the table with an expiry still to come; it carries the subject of the token, a nonce of its own and four hours from now |
| `HermesProxy.ExchangeTable` | runtime-integrations/hermes-webui-auth-proxy.py:135-141 | the table keeps what has not expired and, if a session is minted, the nonce of the token until its expiry |
| `HermesProxy.ForgedIsNotExchanged` | runtime-integrations/hermes-webui-auth-proxy.py:130-133 | for a token whose signature is not that of its payload nothing is minted and the table stays as it is |
| `HermesProxy.MintedSessionWindow` | runtime-integrations/hermes-webui-auth-proxy.py:142-152 | a minted session verifies as a session exactly until its expiry, never as access |
| `HermesProxy.SameClaimsLater` | runtime-integrations/hermes-webui-auth-proxy.py:94-126 | time enters verification only through the claims |
| `HermesProxy.PrunedTokensAreRejected` | runtime-integrations/hermes-webui-auth-proxy.py:134-137 | pruning drops only entries whose tokens verification rejects from then on |
| `HermesProxy.SpentIsAcceptedIff` | runtime-integrations/hermes-webui-auth-proxy.py:130-141 | spent claims are accepted again if and only if their expiry lies between the two clock readings and no later entry is left |
| `HermesProxy.RedeemedAtMostOnce` | runtime-integrations/hermes-webui-auth-proxy.py:130-152 | with equal readings and a clock that never goes back, each token is redeemed at most once in every run |
| `HermesProxy.RedeemedTwiceAcrossExpiry` | runtime-integrations/hermes-webui-auth-proxy.py:105-137 | with differing readings a token can be redeemed twice |
| `HermesProxy.PrunedWithinHorizon` | runtime-integrations/hermes-webui-auth-proxy.py:114-137 | after every prune expiries lie between now and 930 seconds ahead |
| `HermesProxy.RunsStayWithinHorizon` | runtime-integrations/hermes-webui-auth-proxy.py:130-152 | that horizon holds over every run from an empty table |
| `OpenShell.LineSink.AppendChunk` | apps/runner/src/openshell.ts:1349-1356 | a chunk extends the tail, hands on complete lines and keeps the unfinished one |
| `OpenShell.LineSink.FlushPendingLine` | apps/runner/src/openshell.ts:1360-1364 | the unfinished line is handed on once |
| `OpenShell.LineSink.FinishWith` | apps/runner/src/openshell.ts:1366-1374 | the first finish settles the run |
| `OpenShell.LineSink.ProbeDone` | apps/runner/src/openshell.ts:1388-1397 | a successful probe settles the run without looking whether it is settled |
| `OpenShell.SplitAppend` | apps/runner/src/openshell.ts:1352-1353 | splitting a longer text is splitting its last part further, wherever the cut is made |
| `OutputTexts.SplitIsWoven` | apps/runner/src/openshell.ts:1352-1353 | a text is its parts with line ends between them, where a carriage return in front of a newline belongs to the line end |
| `OutputTexts.LinesAreUnique` | apps/runner/src/openshell.ts:1352-1353 | there is only one way to take a text apart like that |
| `OpenShell.RunAgrees` | apps/runner/src/openshell.ts:1345-1364 | for every chunking the lines handed on are those of the whole text, and the buffer is its tail of 64,000 characters |
| `OpenShell.ChunkingIsImmaterial` | apps/runner/src/openshell.ts:1349-1356 | runs over the same texts show the same lines, however cut |
| `OpenShell.OutcomeIsFirst` | apps/runner/src/openshell.ts:1366-1397 | the first event that ends a run fixes its outcome |
| `OutputTexts.TailEnds` | apps/runner/src/openshell.ts:1350-1350 | the tail of a text is the end of it, with as many characters as asked for or all of them |
| `OutputTexts.OutputIsTail` | apps/runner/src/openshell.ts:1345-1350 | after any run the output is the end of everything received, at most 64,000 characters |
| `OutputTexts.ResultIsLastLines` | apps/runner/src/openshell.ts:1366-1374 | a run resolves with the last hundred non-empty lines of its output, or all of them |
| `StartCommand.PiecesJoin` | apps/runner/src/openshell.ts:878-878 | the pieces are full except for the last, fit the limit and join to the payload |
| `StartCommand.WordsAreRead` | apps/runner/src/openshell.ts:851-870 | a shell reads exactly the intended single-quoted words of a text assembled from quote-free parts |
| `StartCommand.ScriptReadsBack` | apps/runner/src/openshell.ts:848-870 | whatever instructions and telemetry contain, the script is read as the intended path words and embedded texts, and these decode to the original bytes |
| `StartCommand.ValidPathIff` | apps/runner/src/openshell.ts:848-849 | which instruction paths are let through, by character codes |
| `StartCommand.ScriptIsLines` | apps/runner/src/openshell.ts:851-874 | the script is the one written line by line: seeding the instructions once, then the telemetry settings if there are any, then the bootstrap text |
| `StartCommand.CommandCarriesScript` | apps/runner/src/openshell.ts:842-883 | the command is refused for its path or its size only; otherwise the arguments joined and decoded are the script, and each fits its limit |

## Left out

- `LangGraphPlaybookRuntime`: its scheduling, retry and routing live in a library that is not part of this model.
- Timing of operators, timeouts and abort signals: they are oracles indexed by iteration and attempt; trace timestamps, error names and cost attributes are not kept. Operators are taken to return new states, not to change the one they are given.
- Compiling the JSON schemas of node inputs and outputs; their verdicts are oracles.
- Trimming of the texts of answer documents and patches: they are taken as parsed.
- Zod limits of answer documents other than 1,000 blocks, 2,000 operations and the path pattern; engine names and node configurations of Playbooks. Text lengths are counted in characters.
- Non-finite numbers in answer documents, which the schema excludes before the engine sees them; in runtime versions they are modelled.
- `localeCompare` is any total order on keys, and lower-casing of policy names any function; Unicode normalisation and lone surrogates are not modelled, and a number is represented by its printed text.
- SHA-256 and HMAC are arbitrary functions, injective where a lemma says so; the claim codec is any pair where decoding undoes encoding.
- State values as objects with a prototype: only the inherited names that a path can spell are modelled.
- `AccessPolicyService.Service.AssignPolicies`: the bindings and the instance row that repeats them are one field, and a push that is refused is taken to change nothing.
- `AccessPolicyService.Service.UpdatePolicy`: rules are compared as values, not by their printed text, and the identifier of a new policy is a parameter.
- `CacheAgreement.RunsKeepAgreement`: operations run one after another, servers and sources are fixed, and instances are neither created nor removed during a run.
- `AgentGarden.DeletionWins`: covers records of managed A2A instances. The PROJECT_AGENT path updates its record without the tombstone guard. Of project deletion only what it does to operations is modelled; a request picks its rows and the operations it cancels freely, which covers every choice the code makes.
- `AgentGarden.StepKeepsInv`: a guarded upsert and a guarded bulk update are one atomic statement each, and the writes of a locking transaction become visible at its commit.
- `AgentGardenRaces.LateSaveIff`: leases, which keep two workers apart as long as they are not lost, are not modelled; the lemma says what follows when they fail.
- `managedInstance`, `appendLifecycleLog` and the runtime calls between saves; a worker asks for arbitrary saves in arbitrary order.
- `ResourceIdentity.KubernetesResourceName`: the accumulator is an unbounded natural number; `AbsorbByte` shows that it stays far below the width at which the original operators wrap around.
- `HermesProxy.IssuedTokenWindow`: reading and writing URLs are arbitrary functions that undo each other; issuer and proxy trim alike on ASCII secrets, which is what is generated.
- `HermesProxy.ProxyState.ExchangeToken`: cookies, headers and the proxying itself are not modelled; boolean claims that the original accepts as integers are left to the codec.
- `OpenShell.RunAgrees`: chunks are decoded text; a multi-byte character cut in two by the process pipe is not modelled.
- `StartCommand.ScriptReadsBack`: the shell is modelled as far as single-quoted words go; the bootstrap text is passed on as it is.
- The runner's in-memory sandbox states, probes of the sandbox phase, terminals and HTTP interfaces: they depend on outside observations.
- The agent catalogue, demo agents, marketplace metadata, cost and trace interfaces and the single-branch checks: they hold no property that spans operations.

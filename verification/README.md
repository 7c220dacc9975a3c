# A Dafny model of Risoluto

Risoluto drives coding agents over a line-based JSON-RPC link, streams their events from a
data plane to a control plane, watches the health of its subsystems, and keeps a
tree-shaped configuration that operators edit. This project models the parts of it that
carry state or index arithmetic, and proves what they keep on every input and in every run.
`dafny verify dfyconfig.toml` checks all of it (Dafny 4.11).

## How the model is laid out

Code that changes things step by step is a method or a class, proved equal to a function
of its old state; the theorems are then about that function, over every run. Timers,
chunks, exits, completions and aborts are events that may come in any order.

| file | what it models |
|---|---|
| `Scanners.dfy`, `ScannerProofs.dfy`, `Redaction.dfy`, `Pipeline.dfy` | the eight secret scanners, the pipeline of all eight, and what running it twice does |
| `Patterns.dfy` | the eight patterns in their own words - literals, character classes and lengths - and that a scan redacts exactly what they match |
| `Json.dfy`, `Canonical.dfy` | JSON text, a reader for it, and the key-sorted canonical form used for equality |
| `JsonGrammar.dfy` | the grammar of RFC 8259 without white space, and that the reader reads exactly its texts |
| `ConfigTree.dfy` | writing, removing and merging in configuration trees |
| `ConfigStores.dfy` | the file-backed and the database-backed store of one port, and the queue of mutations |
| `Dispatch.dfy` | the dispatch stream: what the server writes, what the client makes of any chunking of it |
| `AuditFilter.dfy` | the audit query: LIKE escaping, conditions, placeholders |
| `JsonRpc.dfy` | the JSON-RPC connection: framing, pending requests and timers, exit |
| `JsonRpcLines.dfy` | what a line of the link means to the connection, and which lines make it throw |
| `TurnRendezvous.dfy` | who gets a turn's completion, in any order of waiting, completing, timing out and aborting |
| `TurnLoop.dfy` | the turn loop with its refundable budget, exactly when it ends, and how a run is classified |
| `RequestFailures.dfy` | how a request can fail, and the class of a run that fails by it |
| `StreamBuffers.dfy` | the capped live buffers and their flush timers |
| `Health.dfy` | the health runner's window, hysteresis, cadence, transition log and notices |
| `Scheduler.dfy` | the automation reconciler and the scheduled tasks it owns |
| `Text.dfy` | string helpers |

## What the proofs found

- **An error response whose message cannot be made a string loses a request.** The entry and
  its timer are dropped before `new Error(error.message)` runs. That throws when `error` is
  null, and also when the message is an object with a member called `toString`, or an array
  that holds one; the exception escapes the data handler and the promise never settles.
  `JsonRpcLines.LostByLine` says exactly which lines do this, `JsonRpcLines.LostRequest` and
  `JsonRpcLines.LostExamples` give them. Pending is exactly issued minus settled if and only
  if none has come (`JsonRpc.PendingExactly`).
- **A request made after the connection exited is reported as `startup_failed`,** because
  "connection already exited" does not contain the phrase that is classified as
  `port_exit`. A failed request is a `port_exit` exactly if it was pending when the child
  exited, or an error response used those words (`RequestFailures.FailedRequestClass`).
- **Most recoveries are never announced.** `health_recovered` needs a step straight from
  down to ok, which happens exactly after a lone down outcome in the window; on the way back
  from a longer outage the status passes through degraded
  (`Health.RecoveredNoticeExactly`, `Health.FromFiveFailures`). The bridge's comment
  promises the full incident envelope; the model follows the code. The runner's header
  also speaks of "3-of-5" hysteresis where the code raises the status at two and at four failures.
- **The redaction pipeline is not idempotent,** though each scanner is:
  `http://token:/"@` changes again on a second run (`Pipeline.NotIdempotent`). A second run
  changes nothing exactly when the first result holds no credential URL (`Pipeline.SecondRun`),
  and the texts left alone by a first one are characterised too (`Pipeline.FixedPoint`).
  Run often enough it always settles (`Pipeline.Settles`).
- **The two stores differ exactly on dangerous path segments that are reached:** one
  rejects the call, the other ignores it (`ConfigStores.StoresAgree`, over runs
  `ConfigStores.RunsAgree`; a write to `__proto__` is one: `ConfigStores.StoresDiffer`).
- **Merging is not associative** when a middle patch turns a record into a leaf and the
  last patch makes it a record again without covering it (`ConfigTree.MergeAssociative`, both
  directions; `ConfigTree.NotAssociative` is a triple).
- **Starting the automation scheduler twice leaks a listener:** a stopped scheduler stays
  stopped exactly when no start overlapped another (`Scheduler.AfterStop`, and
  `Scheduler.LeakExample` for a run). Two
  configurations that share a name replace each other's task at every sync (`Scheduler.TaskSurvives`).
- **The turn loop need not end.** A turn whose context overflows and is compacted is refunded.
  The loop ends if and only if some turn does not let it go on, or as many turns as the budget
  allows have gone without a refund (`TurnLoop.EndsExactly`, `TurnLoop.Endless`). An agent
  that fills its context in every turn keeps it going for ever (`TurnLoop.EndlessExample`);
  any bound on the refunds ends it (`TurnLoop.Terminates`).

## Assumptions

- Text is a sequence of characters. The scanners' lower-casing and white space are ASCII.
- Object keys are sorted by some total order: any one will do for the canonical form, if it
  tells different keys apart. Timestamps compare lexicographically by code point.
- A line of the JSON-RPC link is compact JSON without lone surrogates, or else counts as no
  JSON; what `JSON.parse` makes of such a line is what the reader of `Json.dfy` makes of
  it (`JsonGrammar.ParsesExactly`). The theorems about runs hold for any reading of lines.
- An exception that escapes the data handler of the connection ends the process, so nothing
  follows it in a run.
- A JSON number is its canonical numeral text, so equal numbers are equal texts.
- What the agent, the tracker, the cron library and the probes answer are parameters.
- `isRecord` and `asRecord` mean a non-null, non-array object.

## Model

| member | source | states |
|---|---|---|
| Patterns.Redacts | src/core/content-sanitizer.ts:30-353 | where one of the eight patterns stands, from its first character to its last, a scan writes what the pattern keeps, the marker and (for a credential URL) the '@', and goes on behind the match |
| Patterns.Copies | src/core/content-sanitizer.ts:30-353 | where its pattern does not stand, a scan copies one character and goes on |
| Patterns.MatchesOnce | src/core/content-sanitizer.ts:30-353 | a pattern that stands at the front of a text keeps and ends in one place only, so the two theorems before this one determine every scan |
| ScannerProofs.HitIsSecret | src/core/content-sanitizer.ts:30-192 | each of the five token scanners reacts exactly where a text of its pattern starts |
| ScannerProofs.QuietScan | src/core/content-sanitizer.ts:30-353 | a text in which a scanner finds nothing is left as it is |
| ScannerProofs.ScanQuiet | src/core/content-sanitizer.ts:30-289 | nothing in a scanner's own output makes it react again |
| ScannerProofs.Idempotent | src/core/content-sanitizer.ts:30-353 | running any one scanner twice equals running it once, on every text |
| ScannerProofs.BracketFreePrefix | src/core/content-sanitizer.ts:30-353 | up to the first bracket, the output of a scan is its input |
| ScannerProofs.BracketFreeSubstring | src/core/content-sanitizer.ts:30-353 | no scan assembles new text: a bracket-free substring of the output was in the input or is part of the marker |
| ScannerProofs.BearerCopyQuiet | src/core/content-sanitizer.ts:241-289 | no scanner brings a bearer credential to the front of a text that has none there, "bearer null" included |
| ScannerProofs.AssignmentIdempotent | src/core/content-sanitizer.ts:308-353 | a redacted assignment is found again and rewritten to itself, and nothing else changes |
| Redaction.SpanEnd | src/core/content-sanitizer.ts:47-50 | the inner loops stop at the end of the longest run of the character class |
| Redaction.SpanUpTo | src/core/content-sanitizer.ts:139-147 | the bounded inner loops succeed exactly if the run has at least that many characters |
| Redaction.MatchBearer | src/core/content-sanitizer.ts:253-284 | the index moves of the bearer scanner come to its hit on the rest of the text, which `Patterns.Redacts` says in full |
| Redaction.MatchCredentialUrl | src/core/content-sanitizer.ts:207-235 | the same for credential URLs |
| Redaction.MatchAssignment | src/core/content-sanitizer.ts:314-349 | the same for secret assignments |
| Redaction.MatchSlack | src/core/content-sanitizer.ts:98-118 | the same for Slack tokens |
| Redaction.Match | src/core/content-sanitizer.ts:30-353 | what each of the eight scanners recognises at the current index |
| Redaction.RunScanner | src/core/content-sanitizer.ts:30-353 | the index loop, with its growing output, computes the scan |
| Redaction.RedactSecretPatterns | src/core/content-sanitizer.ts:11-20 | the pipeline is the eight scans in the order of the source, each of which `Patterns.Redacts` and `Patterns.Copies` determine |
| Redaction.ScanCleans | src/core/content-sanitizer.ts:30-192 | after its scanner no substring matches a token pattern |
| Redaction.ScanKeepsClean | src/core/content-sanitizer.ts:11-353 | no scanner, run later, brings a token of another pattern back |
| Redaction.PipelineClean | src/core/content-sanitizer.ts:11-20 | the redacted text has no substring that is a Linear, sk-, Slack, AWS or ghp_ secret |
| Pipeline.BearerStaysQuiet | src/core/content-sanitizer.ts:11-353 | no later pass creates a bearer credential |
| Pipeline.TokensQuiet | src/core/content-sanitizer.ts:11-20 | the first six passes change nothing in a redacted text |
| Pipeline.ScanColons | src/core/content-sanitizer.ts:202-239 | no pass adds a colon, and redacting a credential URL removes one |
| Pipeline.SecondRun | src/core/content-sanitizer.ts:11-20 | a second run changes nothing if and only if the redacted text holds no credential URL |
| Pipeline.NotIdempotent | src/core/content-sanitizer.ts:202-353 | a concrete text that a second run changes |
| Pipeline.AssignmentFixed | src/core/content-sanitizer.ts:308-353 | the last pass leaves a text alone if and only if every assignment in it has the marker for its value |
| Pipeline.FixedPoint | src/core/content-sanitizer.ts:11-20 | the pipeline leaves a text alone if and only if the seven other scanners find nothing in it and every assignment has the marker for its value |
| Pipeline.Settles | src/core/content-sanitizer.ts:11-20 | after one run more than the text has colons, no further run changes anything |
| Json.ParsePrint | src/config/overlay-helpers.ts:36-38 | reading the text of a document gives the document back |
| Json.PrintInjective | src/automation/scheduler.ts:99 | different documents have different texts |
| Json.PrintNoControl | src/dispatch/server.ts:66-68 | the text of a document holds no raw control character, so no raw newline |
| JsonGrammar.ParsesExactly | src/agent/json-rpc-connection.ts:151-157 | a text is read as a document if and only if the compact grammar of RFC 8259 spells that document so, escapes and surrogate pairs included |
| JsonGrammar.Unambiguous | src/agent/json-rpc-connection.ts:151-157 | no text spells two documents |
| JsonGrammar.NumeralIs | src/agent/json-rpc-connection.ts:151-157 | a numeral is a sign, an integer part without a leading zero, a fraction and an exponent |
| JsonGrammar.PrintSpells | src/dispatch/server.ts:66-68 | what is written is of that grammar |
| JsonGrammar.EscapeTexts | src/dispatch/server.ts:66-68 | which characters are written as they stand, and the short escapes of the others |
| Canonical.StableStringifyCanonical | src/config/overlay-helpers.ts:21-38 | for any total order of keys, two documents have the same stable text if and only if they are equal up to key order at every depth |
| Canonical.SortCanon | src/config/overlay-helpers.ts:21-34 | for any total order, sorting keys gives a form that depends only on the value, not on the order keys came in |
| Canonical.CanonInjective | src/config/overlay.ts:17-19 | in any total order, canonical texts are equal if and only if the values are |
| Canonical.CanonTextInjective | src/config/overlay.ts:17-19 | so the equality test of the stores is equality of values |
| Canonical.LessTotal | src/audit/logger.ts:53-54 | the order that timestamps are compared by is total |
| ConfigTree.GetAfterSet | src/config/overlay-helpers.ts:72-100 | reading a path after writing it gives the value |
| ConfigTree.GetBelowSet | src/config/overlay-helpers.ts:72-100 | reading below a written path reads inside the value |
| ConfigTree.SetFrame | src/config/overlay-helpers.ts:72-100 | a write leaves every path that is neither prefix nor extension of it alone |
| ConfigTree.SetChangesExactly | src/config/overlay-helpers.ts:72-100 | a write leaves the tree as it was if and only if the value stood at its path already |
| ConfigTree.SetKeepsHarmless | src/config/overlay-helpers.ts:62-100 | no write introduces a dangerous key, whatever its path |
| ConfigTree.RemoveExact | src/config/overlay-helpers.ts:102-134 | removal returns true exactly when the path existed, and changes nothing otherwise |
| ConfigTree.RemovalThrowsExactly | src/config/overlay-helpers.ts:102-134 | a removal that refuses dangerous keys throws if and only if its walk reaches one |
| ConfigTree.RemovedIsGone | src/config/overlay-helpers.ts:102-134 | nothing stands at a removed path |
| ConfigTree.RemoveFrame | src/config/overlay-helpers.ts:102-134 | removal with its pruning leaves every incomparable path alone |
| ConfigTree.RemoveUndoesSet | src/config/overlay-helpers.ts:72-134 | removing what was just written restores the tree if and only if the path was vacant |
| ConfigTree.MergeOverlayMaps | src/config/overlay-helpers.ts:40-60 | the merging loop, over the keys in any order, computes the merge |
| ConfigTree.MergeGet | src/config/overlay-helpers.ts:40-60 | what stands at any path after a merge: what the patch has there, merged over the base if both are records; what the base has where the patch is silent; nothing below a leaf of the patch |
| ConfigTree.MergesAgree | src/config/merge.ts:17-31 | the two merges agree on records without dangerous keys |
| ConfigTree.MergeIdempotent | src/config/overlay-helpers.ts:40-60 | applying a patch twice equals applying it once |
| ConfigTree.DeepMergeIdempotent | src/config/merge.ts:17-31 | the same for the other merge |
| ConfigTree.CoversExactly | src/config/overlay-helpers.ts:40-60 | a merge is the patch alone if and only if the patch covers the base, dangerous keys included |
| ConfigTree.MergeAssociative | src/config/overlay-helpers.ts:40-60 | merging any three trees is associative if and only if no record is revived through a leaf without being covered |
| ConfigTree.NotAssociative | src/config/overlay-helpers.ts:40-60 | a triple of trees on which the two ways of merging differ |
| ConfigStores.NormalizeJoin | src/config/overlay-helpers.ts:14-19 | a path of proper segments survives being joined with dots and normalised |
| ConfigStores.FileStore.Commit | src/config/overlay.ts:126-136 | writes and notifies exactly when the overlay really changed, and says so |
| ConfigStores.FileStore.ApplyPatch | src/config/overlay.ts:83-85 | reply and new map of a patch |
| ConfigStores.FileStore.Set | src/config/overlay.ts:87-98 | reply and new map of a write, rejections included |
| ConfigStores.FileStore.Remove | src/config/overlay.ts:100-115 | reply and new map of a removal, rejections included |
| ConfigStores.RemovalChanges | src/config/overlay.ts:107-113 | a successful removal always changes the map, so the commit behind it writes |
| ConfigStores.DecodeEncode | src/config/db-store.ts:34-45 | decoding the table of a map gives the map |
| ConfigStores.DbStore.Refresh | src/config/db-store.ts:88-101 | afterwards the cached map is what the table decodes to |
| ConfigStores.DbStore.WriteSections | src/config/db-store.ts:173-200 | the upsert and prune loops leave the table as the encoding of the map |
| ConfigStores.DbStore.ApplyPatch | src/config/db-store.ts:125-135 | reply and new map, the cache equal to the decoded table |
| ConfigStores.DbStore.Set | src/config/db-store.ts:137-150 | the same for a write |
| ConfigStores.DbStore.Remove | src/config/db-store.ts:152-164 | the same for a removal |
| ConfigStores.StoresAgree | src/config/db-store.ts:125-164 | one call has the same reply and map on both stores if and only if no dangerous segment is reached |
| ConfigStores.SetTakesEffect | src/config/overlay.ts:87-98 | an accepted write can be read back from either store, says whether another value stood there, and leaves every path beside it alone; exactly when each store refuses one |
| ConfigStores.DeleteTakesEffect | src/config/overlay.ts:100-115 | an accepted removal says on either store whether anything stood at its path, afterwards nothing does, and every path beside it is as it was; exactly when each store refuses one |
| ConfigStores.PatchTakesEffect | src/config/overlay.ts:83-85 | after a patch, on either store, every leaf of the patch stands at its path and every path it is silent about is as it was; the reply says whether anything changed |
| ConfigStores.RunsAgree | src/config/overlay.ts:79-136 | over any sequence of calls the two stores give the same replies and hold the same map if and only if every call is accepted where it is made |
| ConfigStores.StoresDiffer | src/config/db-store.ts:137-150 | a write to any of the three dangerous keys is refused by the one store and passes without effect in the other |
| ConfigStores.ChainIsSequential | src/config/overlay.ts:117-124 | however calls, starts and completions interleave, the mutation chain runs them one after the other in call order |
| ConfigStores.AllAnswered | src/config/overlay.ts:117-124 | whatever has interleaved, once the calls still waiting have had their turn, the replies and the overlay are those of all calls run one after the other |
| Dispatch.DataPlane.Dispatch | src/dispatch/server.ts:66-126 | one dispatch writes every event in order and then exactly one outcome - the run's own if it finished, a dispatch error if it threw - and is no longer active |
| Dispatch.ParseDispatchStream | src/dispatch/client.ts:180-221 | the read loop computes the events delivered and the outcome kept, chunk by chunk |
| Dispatch.ChunkIndependent | src/dispatch/client.ts:180-221 | how the stream is cut into chunks does not matter |
| Dispatch.DecodeEncode | src/dispatch/client.ts:149-178 | the client reads back the message that was written |
| Dispatch.StreamDelivers | src/dispatch/client.ts:149-221 | of whole frames and a part of the next, exactly the events of the whole frames are delivered, and the last outcome among them kept |
| Dispatch.PrefixShape | src/dispatch/server.ts:66-68 | every prefix of a stream is whole frames and a part of the next |
| Dispatch.EndToEnd | src/dispatch/client.ts:180-221 | if any prefix of a dispatch arrives in any chunks, a prefix of the events is delivered, with an outcome if and only if everything arrived: the very outcome of a run that finished, or a failed one with code dispatch_error and the message of a run that threw |
| Dispatch.FinalReports | src/dispatch/server.ts:100-126 | the last message carries the run's own outcome, or the kind, code and message of the error it threw |
| AuditFilter.EscapePassesAreOne | src/audit/logger.ts:34-38 | the three replacing passes are one escape of each character |
| AuditFilter.LikeContains | src/audit/logger.ts:31-40 | the key pattern matches exactly the texts that contain the value, up to ASCII case |
| AuditFilter.LikePrefix | src/audit/logger.ts:42-51 | the path pattern matches exactly the texts that start with the value, up to ASCII case |
| AuditFilter.HoldsMeansWanted | src/audit/logger.ts:25-55 | each condition with its parameters says what the option asks for |
| AuditFilter.BuildWhereClause | src/audit/logger.ts:57-72 | one parameter per placeholder, and a row passes if and only if each given option - table, key, path prefix, from, to, each named - wants it |
| AuditFilter.ConditionTexts | src/audit/logger.ts:30-54 | the SQL text of each of the five conditions |
| AuditFilter.WhereTexts | src/audit/logger.ts:67-71 | no text without conditions, WHERE before the first and AND before each later one |
| AuditFilter.WherePlaceholders | src/audit/logger.ts:67-71 | the clause text has as many placeholders as its conditions take parameters |
| AuditFilter.SqlTexts | src/audit/logger.ts:141-160 | the SQL of the two statements around the clause |
| AuditFilter.SqlPlaceholders | src/audit/logger.ts:141-160 | so have the two statements, with two more for limit and offset |
| JsonRpc.JsonRpcConnection.Request | src/agent/json-rpc-connection.ts:102-116 | a fresh id with a pending entry and a timer, or nothing after exit |
| JsonRpc.JsonRpcConnection.OnTimer | src/agent/json-rpc-connection.ts:108-111 | a timer rejects its request and drops the entry |
| JsonRpc.IssueRegisters | src/agent/json-rpc-connection.ts:102-116 | a request before the exit gets the next id, an entry and a live timer that names it; after the exit it is refused and nothing is registered |
| JsonRpc.TimerRejects | src/agent/json-rpc-connection.ts:108-111 | a live timer rejects its request as timed out and takes entry and timer away; a cleared one does nothing |
| JsonRpc.JsonRpcConnection.OnLine | src/agent/json-rpc-connection.ts:145-191 | the branches on a line, by the four message classifiers |
| JsonRpc.ResponseSettlesRequest | src/agent/json-rpc-connection.ts:159-177 | a response to a pending request resolves it with its result, or rejects it with its error's message, and takes its entry and every timer of it away; an error that cannot be read takes them away, settles nothing and throws |
| JsonRpc.MessagePassedOn | src/agent/json-rpc-connection.ts:179-191 | a request or notification is passed on as it stands and changes nothing else |
| JsonRpc.LineIgnored | src/agent/json-rpc-connection.ts:145-191 | a sentinel, a line that is no message, and a response nobody waits for change nothing |
| JsonRpc.JsonRpcConnection.OnChunk | src/agent/json-rpc-connection.ts:125-143 | the size check and the newline loop on the buffer |
| JsonRpc.JsonRpcConnection.OnExit | src/agent/json-rpc-connection.ts:62-69 | every pending request is rejected, oldest first, and none is left |
| JsonRpc.IssueInv | src/codex/protocol.ts:36-44 | a request's id was given to none before it |
| JsonRpc.RunInv | src/agent/json-rpc-connection.ts:62-177 | in every run each issued request is pending, settled once or dropped, one live timer per pending entry, none pending after exit |
| JsonRpc.PendingExactly | src/agent/json-rpc-connection.ts:102-177 | pending is exactly issued minus settled if and only if no request has been lost |
| JsonRpc.RequestsCounted | src/agent/json-rpc-connection.ts:102-106 | every request made was issued an id of its own or refused at once, and refused only after exit |
| JsonRpc.LostExactly | src/agent/json-rpc-connection.ts:169-177 | a message loses a request if and only if it is an error response, with an error that cannot be read, to a pending number |
| JsonRpcLines.LostByLine | src/agent/json-rpc-connection.ts:145-177 | a line loses a request, and throws, if and only if it is no sentinel and an object with no result, an error that is null or has a message that cannot be printed, and a pending number for its id |
| JsonRpcLines.UnprintableExactly | src/agent/json-rpc-connection.ts:175 | a message cannot be printed if and only if some path down through arrays ends at an object with a member called toString |
| JsonRpcLines.LostRequest | src/agent/json-rpc-connection.ts:169-177 | each such error, sent to a lone request, leaves it neither pending nor settled |
| JsonRpcLines.LostExamples | src/agent/json-rpc-connection.ts:169-177 | two such lines, as text: a null error, and a message with a member called toString |
| JsonRpcLines.ResponseSettles | src/agent/json-rpc-connection.ts:159-167 | the text of a success response to a pending request resolves that request with its result |
| JsonRpcLines.ErrorRejects | src/agent/json-rpc-connection.ts:169-177 | the text of an error response to a pending request rejects that request with its message, and takes its entry and timer away |
| JsonRpcLines.MessageTexts | src/agent/json-rpc-connection.ts:175 | the string that each kind of message becomes |
| JsonRpcLines.NoMessage | src/agent/json-rpc-connection.ts:175 | an error without a message rejects with the empty text |
| JsonRpcLines.ReadRequest | src/agent/json-rpc-connection.ts:179-191 | the text of a request is read as one, with its id and method |
| JsonRpc.RunBacked | src/agent/json-rpc-connection.ts:159-177 | in every run a request is resolved or rejected only by a response line with its own id, and with that response's result or message |
| JsonRpc.ExitIsFinal | src/agent/json-rpc-connection.ts:62-69 | after exit no id is issued, nothing settles and nothing becomes pending |
| JsonRpc.Framing | src/agent/json-rpc-connection.ts:125-143 | within the limit the lines handled are the non-empty trimmed lines of all the text so far, and the buffer is the rest, however it was cut |
| JsonRpc.OverflowIsFinal | src/agent/json-rpc-connection.ts:128-132 | once the limit is exceeded no line is handled again |
| JsonRpc.OverflowKills | src/agent/json-rpc-connection.ts:128-132 | a buffer of more than 10 MiB in UTF-8 kills the child, and nothing is handled |
| JsonRpc.Utf8Lengths | src/agent/json-rpc-connection.ts:128 | the byte length of each character, range by range |
| TurnRendezvous.TurnState.RecordCompletedTurn | src/agent-runner/turn-state.ts:95-106 | the payload goes to the waiter if there is one, else into the completed map |
| TurnRendezvous.TurnState.WaitForTurnCompletion | src/agent-runner/turn-state.ts:124-153 | a stored payload is taken at once, else resolver, timer and abort listener are set up |
| TurnRendezvous.TurnState.OnTimeout | src/agent-runner/turn-state.ts:141-145 | the waiter is rejected and all three are taken down |
| TurnRendezvous.TurnState.OnAbort | src/agent-runner/turn-state.ts:136-140 | every waiter that listens is rejected |
| TurnRendezvous.TimeoutRejects | src/agent-runner/turn-state.ts:141-145 | a timeout settles its waiter as timed out, takes it and its resolver, timer and listener away, and touches no one else; once settled it does nothing |
| TurnRendezvous.AbortRejects | src/agent-runner/turn-state.ts:136-140 | the first abort settles every waiter as interrupted and leaves no resolver, timer or listener; stored payloads stay |
| TurnRendezvous.LateAndNameless | src/agent-runner/turn-state.ts:95-153 | a wait that begins after the abort is not interrupted, and a completion without a turn id changes nothing |
| TurnRendezvous.RunInv | src/agent-runner/turn-state.ts:95-153 | in every run each waiter settles at most once, no payload is delivered twice or to another turn, and no turn is in both maps |
| TurnRendezvous.WaitThenComplete | src/agent-runner/turn-state.ts:95-153 | after a wait and any events that do not concern it, the completion hands the waiter its payload |
| TurnRendezvous.CompleteThenWait | src/agent-runner/turn-state.ts:95-153 | after a completion and any events that do not concern its turn, aborts included, the waiter is handed that payload at once |
| TurnRendezvous.OrderIrrelevant | src/agent-runner/turn-state.ts:95-153 | back to back, the two orders end in the very same state |
| TurnRendezvous.WaiterStays | src/agent-runner/turn-state.ts:124-153 | a waiter stays in place through any events that do not concern it |
| TurnRendezvous.PayloadStays | src/agent-runner/turn-state.ts:95-106 | a stored payload is kept through any events that do not concern its turn, aborts included |
| TurnLoop.TurnExecutor.RunSingleTurn | src/agent-runner/turn-executor.ts:130-176 | count, prompt and turn id of a turn, and what it comes to |
| TurnLoop.TurnExecutor.HandleTurnLoop | src/agent-runner/turn-executor.ts:239-255 | the self-calling loop is a run of passes, ends in every run that has a turn to end at, no later than there, and keeps the budget invariant |
| TurnLoop.GoesOnExactly | src/agent-runner/turn-executor.ts:55-255 | the loop goes on after a pass if and only if there was budget and nothing about the turn ended it: abort, start, completion, fatal failure, status, issue state, stop signal |
| TurnLoop.EndsBeforeTurn | src/agent-runner/turn-executor.ts:239-247 | a spent budget, and an abort before a turn with kind and code for each reason, start nothing |
| TurnLoop.EndsInTurn | src/agent-runner/turn-executor.ts:55-222 | kind, code, turn id and count of a turn with a fatal failure, a failed, an interrupted and a context-full one, from the fields of the completion; a compacted one is refunded |
| TurnLoop.EndsAfterTurn | src/agent-runner/turn-executor.ts:173-237 | any other turn leaves the loop by an inactive issue or a stop signal, or goes on |
| TurnLoop.ThrowsExactly | src/agent-runner/turn-executor.ts:130-176 | exactly when a pass throws, and which error |
| TurnLoop.ContextFullExactly | src/agent-runner/turn-executor.ts:48-53 | a context is full by error type, or by either phrase anywhere in the message, whatever its case |
| TurnLoop.PassesInv | src/agent-runner/turn-executor.ts:130-255 | the count stays within the budget, turn starts are count plus compactions, and the issue prompt goes out exactly while the count is zero |
| TurnLoop.Terminates | src/agent-runner/turn-executor.ts:201-255 | with any bound on the refunds of the turns within reach the loop ends within budget plus bound plus one passes |
| TurnLoop.EndsExactly | src/agent-runner/turn-executor.ts:201-255 | within n passes the loop ends if and only if one of the next n turns ends it or finds the budget spent, refunds counted back |
| TurnLoop.Endless | src/agent-runner/turn-executor.ts:201-255 | the loop never ends if and only if there is no such turn at all |
| TurnLoop.AllRefunded | src/agent-runner/turn-executor.ts:201-255 | if every turn is refunded the loop never ends, the count back at zero each time |
| TurnLoop.EndlessExample | src/agent-runner/turn-executor.ts:201-255 | a concrete agent and a budget of one turn for which the loop never ends |
| TurnLoop.NormalExactly | src/agent-runner/exit-classifier.ts:6-52 | the outcome is normal if and only if the loop left by inactive issue, stop signal or spent budget, with no fatal failure and no exit code unless aborted |
| TurnLoop.LeftOutcome | src/agent-runner/exit-classifier.ts:6-52 | kind and code when the loop was left: fatal failure, OOM kill, port exit, normal, each with its condition |
| TurnLoop.ThrownOrder | src/agent-runner/turn-executor.ts:257-269 | a thrown error is the fatal failure, else the abort with its own code, else its class, each code exactly for the messages that call for it |
| TurnLoop.TurnTimeoutClass | src/agent-runner/abort-outcomes.ts:47-65 | the rendezvous' timeout is classified as a turn timeout |
| TurnLoop.RequestTimeoutClass | src/agent-runner/abort-outcomes.ts:47-65 | the connection's timeout of any method is a read timeout, unless the method itself speaks of a turn completion |
| TurnLoop.ExitWhileWaitingClass | src/agent-runner/abort-outcomes.ts:47-65 | an exit under a pending request is classified as a port exit |
| TurnLoop.AlreadyExitedClass | src/agent-runner/abort-outcomes.ts:47-65 | a request after the exit is classified as a failed start |
| RequestFailures.PortExitExactly | src/agent-runner/abort-outcomes.ts:47-65 | the code is port_exit exactly for a request pending at the exit or answered in those words; a refused request is a failed start, one that timed out a read timeout unless its method speaks of a turn completion |
| RequestFailures.ExitedExactly | src/agent/json-rpc-connection.ts:62-69 | in every run a request fails by the exit if and only if it was pending then |
| RequestFailures.FailedRequestClass | src/agent/json-rpc-connection.ts:62-116 | over whole runs, a failed request is classified port_exit if and only if it was pending at the exit or an error response used those words |
| StreamBuffers.TailAppend | src/agent-runner/notification-handler.ts:43-46 | cutting the content as it grows leaves what cutting once would |
| StreamBuffers.TailIsEnd | src/agent-runner/notification-handler.ts:43-46 | the tail is the end of the content, all of it up to 16000 characters |
| StreamBuffers.RunBuffers | src/agent-runner/notification-handler.ts:38-64 | in every run a buffer holds the last 16000 characters of its deltas, timers are exactly the pending flushes, and a buffer without one has gone out as it stands |
| StreamBuffers.FlushEmits | src/agent-runner/notification-handler.ts:50-63 | a flush emits the tail of all deltas of its buffer; a cancelled timer emits nothing |
| StreamBuffers.NoFlushAfter | src/agent-runner/turn-state.ts:48-71 | no flush of an item is pending after its completion, none at all after a clear-all |
| StreamBuffers.TurnStreams.Schedule | src/agent-runner/notification-handler.ts:38-64 | a delta extends the buffer and sets a timer if none is pending |
| StreamBuffers.TurnStreams.OnTimer | src/agent-runner/notification-handler.ts:50-63 | the buffer a timer holds is the one under its key |
| StreamBuffers.TurnStreams.ClearBuffer | src/agent-runner/turn-state.ts:48-57 | the entry goes and its timer with it |
| StreamBuffers.TurnStreams.OnItemCompleted | src/agent-runner/notification-handler.ts:300-307 | completion clears the item's three buffers |
| StreamBuffers.TurnStreams.ClearAllBuffers | src/agent-runner/turn-state.ts:65-71 | the clearing loops leave no buffer and no timer |
| Health.WorstIsFirstOfHighest | src/health/health-runner.ts:198-220 | the aggregate is the first sub-probe of the highest rank, with the largest latency |
| Health.AggregateOk | src/health/health-runner.ts:198-220 | a probe is ok if and only if it has sub-probes and all are ok |
| Health.ComputeAggregate | src/health/health-runner.ts:198-220 | the loop computes the aggregate |
| Health.AggregateStatus | src/health/health-runner.ts:198-296 | down if and only if some sub-probe is down, degraded if and only if some is degraded and none down, else the first that is not ok; unknown if there is none |
| Health.AggregateReport | src/health/health-runner.ts:198-220 | failure kind and detail are those of the first sub-probe with the aggregate status |
| Health.RankOrder | src/health/health-runner.ts:283-296 | ok below slow and unknown, these below degraded, degraded below down |
| Health.ApplyHysteresis | src/health/health-runner.ts:273-281 | the raw status is raised to the floor set by the failure count, and no further |
| Health.HysteresisTable | src/health/health-runner.ts:273-281 | four or more failures give down; two or three give down if the raw status is down and degraded otherwise; fewer give the raw status |
| Health.RunTracks | src/health/health-runner.ts:142-164 | in every interleaving the window is the last five raw outcomes, and the status the last one raised to their floor |
| Health.Stamps | src/health/health-runner.ts:153-154 | the two stamps are the times of the latest ok and the latest other outcome |
| Health.StatusAfterOks | src/health/health-runner.ts:142-281 | after any number of ok outcomes the status is exactly the floor of what is left of the older window |
| Health.FourOksRestore | src/health/health-runner.ts:142-281 | four ok outcomes restore ok from any reachable state |
| Health.FromFiveFailures | src/health/health-runner.ts:142-281 | from five failures the statuses are down, degraded, degraded, ok |
| Health.EventsChain | src/health/health-runner.ts:177-196 | a probe's transition events lead from unknown to its status now, each starting where the last ended, without self-loops |
| Health.ReportsLast | src/health/health-runner.ts:142-164 | in every run a probe's result carries the sub-probes, time, kind, detail and latency of its last completion |
| Health.EventCarries | src/health/health-runner.ts:177-196 | a completion logs a transition, with both statuses and the result's own fields, if and only if the status changed |
| Health.DownNoticeExactly | src/health/health-notification-bridge.ts:27-48 | the down notice goes out if and only if the probe was not down and now is |
| Health.RecoveredNoticeExactly | src/health/health-notification-bridge.ts:50-70 | the recovery notice goes out if and only if the outcome is ok, the one before was itself down, and the rest of the window is ok |
| Health.DownClauseRedundant | src/health/health-runner.ts:93-105 | a status other than ok has a failure in its window, so the clause on down never decides |
| Health.Cadence | src/health/health-runner.ts:85-105 | over completed ticks a probe runs on the first, on the next after a failure in its window, and exactly five later otherwise |
| Health.ProbeState.constructor | src/health/health-runner.ts:255-257 | the initial record |
| Health.ProbeState.PushWindow | src/health/health-runner.ts:259-262 | push, and shift when over five |
| Health.ProbeState.ComposeResult | src/health/health-runner.ts:142-164 | the new record and the result, from the old record and the sub-probes |
| Health.HealthRunner.constructor | src/health/health-runner.ts:61-69 | one record per probe id, none shared |
| Health.HealthRunner.StartTick | src/health/health-runner.ts:85-91 | the count goes up and exactly the due probes are started, each once |
| Health.HealthRunner.FinishProbe | src/health/health-runner.ts:107-116 | one probe's record and the event log change, nothing else |
| Scheduler.SignatureInjective | src/automation/scheduler.ts:98-103 | configurations with the same signature are the same |
| Scheduler.LiveAreHeld | src/automation/scheduler.ts:89-109 | the live tasks are exactly those the entries hold, and no two entries share one |
| Scheduler.SyncEntries | src/automation/scheduler.ts:89-109 | after a sync the entries bear exactly the configured names and the last configuration of each |
| Scheduler.StartsAndChangesCarry | src/automation/scheduler.ts:50-162 | after any run, a start, and a change while anyone listens, leave exactly the configured names, the last configuration of each, a live task that runs it if enabled and valid, and the error text if invalid |
| Scheduler.TaskSurvives | src/automation/scheduler.ts:89-109 | a task lives on through a sync if and only if its name is configured and only with the configuration it runs |
| Scheduler.RunInv | src/automation/scheduler.ts:50-109 | in every run of starts, changes and stops the live tasks are the held ones, and the listeners are accounted for |
| Scheduler.StopClears | src/automation/scheduler.ts:57-64 | after a stop no task is live and no entry is left |
| Scheduler.AfterStop | src/automation/scheduler.ts:50-64 | a stopped scheduler ignores later changes if and only if no start overlapped another |
| Scheduler.LeakExample | src/automation/scheduler.ts:50-64 | a run with two starts and one stop, after which a change schedules a task again |
| Scheduler.AutomationScheduler.Start | src/automation/scheduler.ts:50-55 | sync, then subscribe: the entries and tasks of the configurations, and one listener more |
| Scheduler.AutomationScheduler.OnChange | src/automation/scheduler.ts:52-54 | every subscribed callback syncs |
| Scheduler.AutomationScheduler.Stop | src/automation/scheduler.ts:57-64 | unsubscribe the held listener, destroy every task, clear the map |
| Scheduler.AutomationScheduler.SyncEntriesWith | src/automation/scheduler.ts:89-109 | the two loops compute the sync |
| Scheduler.AutomationScheduler.CreateEntry | src/automation/scheduler.ts:111-162 | disabled, invalid and scheduled entries, with the error text of an invalid one |

## Left out

- ConfigTree: trees are values. That the source edits a fresh clone in place, and any aliasing with the caller, is not modelled; nor is the order of keys inside a tree.
- Canonical.StableStringifyCanonical: takes the key order to be total; two different keys that a collation holds equal are outside it.
- Canonical.SortCanon: likewise; the order in which objects list integer-like keys counts as part of the key order.
- Json: the reader accepts compact text only, which is all the modelled writers produce; white space, and numbers beyond their canonical numeral, are not modelled.
- Redaction.RunScanner: the eight outer loops of the source are one loop over a matching step, since they differ only in that step; structured-JSON redaction, object cloning and truncation around the scanners are not modelled.
- ScannerProofs.Idempotent: ASCII only, because lower-casing outside it can change the length of a text.
- ConfigStores: file watching, reloading, retries and failures while persisting, `replace`, and using the database store before its first refresh.
- ConfigStores.DbStore.WriteSections: the transaction and the timestamps of the rows are not modelled.
- Dispatch: HTTP status codes, authentication, abort requests and UTF-8 sequences split across chunks.
- AuditFilter.BuildWhereClause: SQLite's evaluation of the ordering, limit and offset is not modelled; rows are judged one by one.
- JsonRpc.JsonRpcConnection.OnLine: what a request handler answers, `notify`, `interruptTurn` and standard error are not modelled.
- JsonRpc.Framing: input is characters; a multi-byte character cut by a chunk boundary is not modelled.
- TurnRendezvous.RunInv: two concurrent waiters on one turn are outside it; the source keeps a single resolver per turn.
- TurnLoop: token usage, emitted events, the text of messages and prompts, and how a completion's fields are extracted.
- TurnLoop.TurnExecutor.HandleTurnLoop: asks for a turn at which the run ends, since a method has to end; the runs without one are those of `TurnLoop.Endless`.
- StreamBuffers: the reasoning text buffer without a timer, review summaries, and the debounce delay itself.
- Health: jitter, the probe timeout, the sample store and the snapshot for unconfigured probes.
- Health.Cadence: speaks of ticks that complete before the next; overlapping ticks are covered by the window, status and event theorems.
- Scheduler.AutomationScheduler.CreateEntry: the log line and the notification sent for an invalid expression are not modelled.
- Scheduler: running an automation, its schedule, and the sorted listing.
- Docker, Git, GitHub and Linear clients, the front end, OpenAPI and schema declarations, and the orchestrator are not part of this model.

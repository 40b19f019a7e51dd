# FastQL, modelled and proved

FastQL is a hand-built GraphQL engine: a lexer, parser and printer for executable documents, a validator, an
executor with null propagation and incremental delivery (`@defer`, `@stream`), a graphql-transport-ws
handler, a batching data loader, input coercion, Relay paging and a schema type map. This project models
those parts in Dafny and proves what they promise, for all documents, schemas, resolvers, inputs and
interleavings. `dafny verify dfyconfig.toml` checks all of it.

## How it is laid out

| part | modules |
|---|---|
| syntax tree, runs of a transition relation, what arguments mean | `Ast`, `Runs`, `Arguments` |
| field collection | `CollectFields`, `Selected` (what it selects, told from the document) |
| execution, null propagation, errors | `Executor` (functions), `ExecutorObject` (the `_Executor` object), `NullPropagation`, `Shapes`, `Reports`, `Schedule` |
| incremental delivery | `Gist`, `Incremental`, `Delivery`, `Answer`, `StreamedGroups`, `Streaming`, `Queued`, `Served`, `PayloadReports` |
| language | `Lexer`, `LexedText`, `Lexicon`, `Parser`, `ParserObject`, `Grammar`, `GrammarSound`, `Spans`, `Locations`, `Printer`, `PrintedText`, `RoundTrip`, `Reprint` |
| validation | `FragmentCycles`, `FieldMerging`, `FieldMergingExact`, `FieldMergingObject`, `Validated` |
| protocols and state | `WebSocket`, `WebSocketAnswers`, `DataLoader`, `LoaderHistory`, `DataLoaderObject`, `TypeMap` |
| input and paging | `Values`, `Coerced`, `Codec`, `Relay` |

Where the source updates objects in place, a class does the same here (`FieldCollector`, `ExecutorState`,
`Lexer`, `Cursor`, `Validator`, `MergingRule`, `Loader`, `Schema`), each method proved equal to a function or
against a predicate, and the theorems are about those. The WebSocket handler and the coroutines of an
operation are transition relations over the steps the event loop can take; the loader has both forms.

Conventions that matter for reading the statements:

- Resolvers, leaf serializers, runtime type inference, batch functions, user constructors and float rounding
  are arbitrary function parameters; a resolver call returns a value or raises, a serializer may also crash.
- `Finite(x)` says that fragment spreads unfold to bounded size, witnessed by a weight per fragment; it is
  what makes execution terminate. `FragmentCycles.AcyclicExactlyWhenBounded` proves that such a weight exists
  exactly when the fragment-cycle rule is silent, so it is no further restriction.
- `Ready(x)` is `Finite(x)` without incremental delivery. Statements that ask for `Finite(x)` alone hold in both
  modes; with incremental delivery they are about what one payload holds. `Pathless(w)` says that raised GraphQL
  errors carry no path of their own; `Sound(x)` adds that serializers do not turn values into null and that object
  fields have output types.
- A *position* is a place in the response with its type, the field nodes behind it, its path and what a resolver,
  or the list it stands in, gave for it. `Report(x, p)` is what happened at a position itself: its resolver raised,
  completing it ran into another exception, it gave null where none may be, or its value was refused, no list, or
  of no known type. `PositionIn` and `OperationPosition` find the position at a path below an object or in an
  operation.
- A *fact* is a response path together with what stands there: null, a leaf with its content, a list, an
  object.

## What is claimed where the code and a specification differ

- A null bubble is absorbed at object positions and at the root only; lists re-raise it, nullable or not
  (`fastql/execution/execute.py:692-693`, `805-806`). Section 6.4.4 of the GraphQL specification (October
  2021) lets a nullable list absorb it. The model follows the code; `NullPropagation.NullableListBubbles`
  shows the difference.
- A streamed item that bubbles becomes null whatever its type (`fastql/execution/execute.py:446-451`), and
  `Delivery.StreamedNullExactly` says that this is the only way for an item to be null at a non-null item type.
  Agreement of the incremental and the one-shot answer is claimed for runs whose one-shot form records no
  error.
- One list can be streamed twice: when its field is selected with `@stream` both inside and outside a deferred
  fragment, each of the two groups queues a stream and each item arrives twice. `Streaming.DeliversTwice` is
  such a run; `Streaming.ItemsOnceExactly` shows that items arrive once in exactly the other cases.
- `hasNextPage` is also true when a `before` cursor points beyond the data (`fastql/relay.py:216-223`);
  `Relay.NextPageExact` gives the exact condition, `Relay.SpuriousNextPage` an instance, and
  `Relay.PreviousPageExact` the condition for `hasPreviousPage`.
- The ID literal `-0` coerces to `"-0"`, its JSON reading to `"0"`; `Values.IdAgreesExactly` shows that this
  is the only integer token for which they differ.
- A variable's value is returned before any non-null check (`fastql/execution/values.py:166-172`):
  `Values.VariableSkipsNonNull` is an instance. `Values.ConformsExactly` gives the exact condition: the
  coerced value has no null at a non-null position if and only if every variable that comes into it has a value
  that conforms to the type of its position. The agreement theorem is about variable-free literals.
- The WebSocket promises hold for every client exactly when a finished task's done-callback runs before the
  reader that awaits that task goes on. With an event loop where awaiting a task already done does not yield
  first, an operation can outlive the handler as soon as a client subscribes again under an id it has completed
  (`WebSocket.OperationOutlivesHandler`, a run for every id), and only then: `WebSocket.SafeExactly` says for
  every event loop and every set of ids that clients may use again whether the promises hold, and
  `WebSocket.FreshIdsAreSafe` that they hold on every event loop for clients that never do.
- A batch function that is cancelled leaves its futures pending, since only `Exception` is caught
  (`fastql/dataloader.py:159-183`); `DataLoader.CancelledBatchStrands` is such a run. With nothing queued or
  running a future is pending exactly when a cancelled batch held it and nobody gave it up
  (`DataLoader.PendingExactlyWhenStranded`), and it stays pending, whatever the loader does from then on
  (`DataLoader.StrandedWaitsForever`).

## Model

| member | source | states |
|---|---|---|
| CollectFields.CollectsExactlyReachable | fastql/execution/collect_fields.py:31-89 | without deferral a field node is collected if and only if a chain of included, type-applicable fragments leads to it, cyclic fragments included |
| CollectFields.CollectsEachOnce | fastql/execution/collect_fields.py:47-89 | the collected nodes stand at pairwise distinct places of the document: each node is taken at most once however often its fragment is spread |
| CollectFields.DeferralPartitionsReachable | fastql/execution/collect_fields.py:47-103 | with deferral every reachable field is collected now or reachable from a deferred fragment, and nothing else is |
| CollectFields.GroupsMeaning | fastql/execution/collect_fields.py:51-56 | the ordered mapping has one group per response key, in first-visit order, each holding exactly the nodes of that key in visiting order |
| CollectFields.GroupHoldsReachable | fastql/execution/collect_fields.py:31-44 | a response key's group holds exactly the reachable fields with that key |
| CollectFields.GroupPerKey | fastql/execution/collect_fields.py:31-44 | every reachable field has a group and no two groups share a key |
| CollectFields.FieldCollector.Collect | fastql/execution/collect_fields.py:47-89 | the walk that updates mapping, visited set and deferred list in place leaves them exactly as the visiting order demands |
| CollectFields.FieldCollector.CollectOne | fastql/execution/collect_fields.py:51-89 | one selection: skipped, appended, set aside, or expanded once |
| Selected.IncludedExactly | fastql/execution/collect_fields.py:126-146 | a selection is left out if and only if the first `if` of its `skip` directives denotes true or that of its `include` directives denotes false; a literal denotes itself, a variable its value, nothing else a truth |
| Selected.DeferredExactly | fastql/execution/collect_fields.py:149-164 | a fragment is deferred if and only if it has a `defer` directive and the last `if` of the first one, if there is any, counts as true |
| Selected.HoldsExactly | fastql/execution/collect_fields.py:106-123 | a fragment is expanded if and only if it is not left out and its condition is the runtime type, an interface of it, or a union with it |
| Selected.CollectedExactly | fastql/execution/collect_fields.py:47-103 | with or without deferral a field is collected if and only if it is not left out and the selection set leads to it through such fragments, none of them deferred |
| Selected.SetAsideExactly | fastql/execution/collect_fields.py:92-103 | a selection list is set aside if and only if the selection set leads, through fragments not deferred, to a deferred one that holds it |
| Selected.CollectedInOrder | fastql/execution/collect_fields.py:47-89 | visiting each fragment once brings the fields up in the same order as writing every fragment out wherever it is spread |
| Executor.WalkSize | fastql/execution/execute.py:838-849 | collecting fields never enlarges the unfolded size, deferred fragments included: execution terminates |
| Selected.StreamedExactly | fastql/execution/execute.py:462-488 | a list is streamed after its first n items if and only if its field's first `stream` directive is not switched off by its last `if` and its last `initialCount` says n, or none does and n is zero |
| Selected.AtOnceExactly | fastql/execution/execute.py:773-784 | an item is delivered at once if and only if its list is not streamed or streamed from further on |
| Arguments.ReprExactly | fastql/validation/rules.py:682-710 | two literals compare equal if and only if they mean the same: kind and content, lists item by item, input objects field by field in any order and with multiplicity, however strings are quoted |
| Arguments.ArgumentsMapExactly | fastql/validation/rules.py:678-679 | the argument map has exactly the names of the arguments, each with its last occurrence |
| Arguments.ArgumentsMapsAgree | fastql/validation/rules.py:678-710 | two fields' argument maps are equal if and only if under every name both or neither have an argument and the last ones mean the same |
| ExecutorObject.ExecutorState.ExecuteFieldGroups | fastql/execution/execute.py:629-657 | fields run serially or together give the specified ending and append exactly the specified errors and jobs to the executor's lists |
| ExecutorObject.ExecutorState.ExecuteOneField | fastql/execution/execute.py:659-699 | one field: typename, unknown field, raising resolver, caught exception, re-raised bubble |
| ExecutorObject.ExecutorState.CompleteOneValue | fastql/execution/execute.py:708-757 | completion of a value under non-null, list, leaf and composite types |
| ExecutorObject.ExecutorState.CompleteOneList | fastql/execution/execute.py:759-784 | the list check, the initial items, the stream job for the rest |
| ExecutorObject.ExecutorState.AwaitItems | fastql/execution/execute.py:786-807 | all items are completed, another exception wins over a bubble and a bubble over data |
| ExecutorObject.ExecutorState.CollectSubfields | fastql/execution/execute.py:838-849 | one collector per field node, merged group by group, is the same as collecting all nodes one by one |
| ExecutorObject.ExecutorState.RunOperation | fastql/execution/execute.py:352-377 | the data or null of an operation, its errors and pending jobs |
| ExecutorObject.ExecutorState.ResolveDeferredJob | fastql/execution/execute.py:418-439 | a deferred fragment's data, errors and further jobs |
| ExecutorObject.ExecutorState.ResolveStreamItem | fastql/execution/execute.py:441-460 | the head item is completed, the job advances or leaves, a bubble leaves null, another exception ends the stream |
| ExecutorObject.ExecutorState.RunIncrementally | fastql/execution/execute.py:388-416 | the payload loop over the two job queues, run in place, yields the specified payloads and ends |
| ExecutorObject.ExecutorState.Record | fastql/execution/execute.py:994-1003 | an error keeps the path it carries and otherwise gets the current one |
| NullPropagation.NonNullSoundness | fastql/execution/execute.py:352-377 | whatever resolvers, serializers and type resolution do, the response holds no null at a position whose runtime type is non-null |
| NullPropagation.BubblesExactly | fastql/execution/execute.py:701-807 | a position bubbles if and only if a chain of positions that all pass bubbles on leads to a non-null position with a null of its own |
| NullPropagation.NullExactly | fastql/execution/execute.py:701-757 | data is null at a position if and only if it is nullable and the null is its own, or it is an object position where such a chain ends: bubbles are absorbed exactly there |
| NullPropagation.ResponseNullExactly | fastql/execution/execute.py:369-377 | the whole response is null if and only if a chain starts at a root field |
| NullPropagation.ConductedBubble | fastql/execution/execute.py:726-757 | one level of the rule: a position without a null of its own bubbles if and only if it conducts and a child bubbles |
| NullPropagation.FieldsBubbleExactly | fastql/execution/execute.py:629-657 | an object's fields bubble if and only if a chain starts at one of them |
| NullPropagation.NullableListBubbles | fastql/execution/execute.py:805-807 | a nullable list with a null item of a non-null item type bubbles |
| Reports.ErrorsExplained | fastql/execution/execute.py:659-807 | following any recorded error's path through the data meets a null at or before its end |
| Reports.NullsExplained | fastql/execution/execute.py:659-807 | every null in the response, the response itself included, is one a resolver returned at a nullable position, has a recorded error at or beneath it, or stands for a field its type does not have |
| Reports.ErrorsExactly | fastql/execution/execute.py:659-807 | an error is recorded for a position if and only if that position, or one below it, reports it: nothing else is recorded and no report is lost |
| Reports.RecordedExactly | fastql/execution/execute.py:352-377 | the same of an operation, a mutation stopping at its first bubbling root field; whatever resolvers, serializers and type resolution do |
| Reports.RecordedAtPosition | fastql/execution/execute.py:994-1003 | when raised errors carry no path, each error stands at the path of the position that reports it, and no path has two |
| Shapes.ResponseShapes | fastql/execution/execute.py:708-807 | data at a typed position of any response is null, the atom its leaf serializer emits, a list of as many items as are delivered, or an object with exactly the keys selected there in order |
| Shapes.RootShape | fastql/execution/execute.py:352-377 | the response is null or an object with the root fields' keys in order |
| Shapes.UntypedEntries | fastql/execution/execute.py:659-699 | `__typename` gives the object type's name, a field the type does not have gives null |
| Shapes.KeysExactly | fastql/execution/collect_fields.py:51-56 | a key has a group if and only if some field has it as its alias, or as its name without one, and the group is of exactly those fields |
| Shapes.BelowExactly | fastql/execution/execute.py:838-849 | the fields collected below a group are exactly those that some of its nodes select on the runtime type |
| Shapes.BelowInOrder | fastql/execution/execute.py:838-849 | in the order of writing all fragments out, node after node |
| Shapes.RuntimeExactly | fastql/execution/execute.py:809-836 | an abstract type is resolved to a name if and only if that is what is inferred and an object type of the schema |
| NullPropagation.ResponseIsLocal | fastql/execution/execute.py:629-807 | the data at any response path is what completing the position there gives |
| NullPropagation.CrashExact | fastql/execution/execute.py:786-807 | completion ends in an exception other than a bubble if and only if a serializer or type resolution crashed at the value or at some list item below it |
| NullPropagation.JoinedFields | fastql/execution/execute.py:629-657 | sibling fields end in data with one entry per key in order unless one of them bubbles |
| NullPropagation.JoinedItems | fastql/execution/execute.py:796-807 | list items end in a crash, a bubble or aligned data, in this precedence |
| Schedule.ScheduleIndependence | fastql/execution/execute.py:629-807 | however the coroutines of a query or a mutation interleave, the root fields of a mutation one after the other, a finished run has the same data, key order included, and the same multiset of errors as uninterrupted execution |
| Schedule.StepPreserves | fastql/execution/execute.py:629-807 | no step of any coroutine changes what its task will end with and report in all |
| Schedule.SiblingsInterleave | fastql/execution/execute.py:640-657 | any list item or field that can step may be the next to step, root fields of a mutation only once those before have ended in data |
| Schedule.CanStep | fastql/execution/execute.py:640-657 | no deadlock: a task that has not finished can take a step |
| Schedule.RunsEnd | fastql/execution/execute.py:629-807 | no interleaving takes more steps than the work there is |
| Gist.ConsistentSubset | fastql/execution/execute.py:838-849 | groups that agree at every depth keep agreeing when some of their nodes are deferred |
| Incremental.ValueSays | fastql/execution/execute.py:708-784 | a completed value and the jobs it leaves together say exactly what its field nodes say, deferral and streaming aside |
| Incremental.ObjectSays | fastql/execution/execute.py:739-757 | so do an object, its entries and the jobs of its deferred fragments |
| Delivery.IncrementalPreservesMeaning | fastql/execution/execute.py:388-460 | for groups that merge and a one-shot run without errors, the payloads together tell exactly the facts the one-shot response tells |
| Delivery.IncrementalDiscipline | fastql/execution/execute.py:388-416 | the run ends, no payload has errors, `hasNext` is false on exactly the last payload, and each payload adds to a container already delivered, a streamed item after the item before it |
| Delivery.PayloadsSay | fastql/execution/execute.py:399-416 | whatever is queued, the payloads to come say what the pending jobs have still to say |
| Delivery.DeferredStep | fastql/execution/execute.py:399-439 | serving a deferred job leaves one payload less to come: the loop ends |
| Delivery.ItemStep | fastql/execution/execute.py:405-460 | serving a streamed item leaves one payload less to come: the loop ends |
| Delivery.StreamedNullExactly | fastql/execution/execute.py:441-460 | a streamed item is null at a non-null item type if and only if completing it bubbles; an item that is null does, with its own error |
| Queued.QueuedExactly | fastql/execution/execute.py:739-757 | whatever fails beside or above it, a deferred fragment is queued if and only if the operation's selection set or an object executed below it sets it aside, for that object, at its path |
| Queued.DeferredQueuesExactly | fastql/execution/execute.py:418-439 | the same of fragments deferred within a deferred one |
| Queued.ItemQueuesExactly | fastql/execution/execute.py:441-460 | the same of fragments deferred within a streamed item |
| Served.EveryJobServed | fastql/execution/execute.py:388-416 | every run, with errors or not, brings exactly one payload for each deferred fragment and each streamed item that its jobs lead to, with their data and errors, and `hasNext` is false on its last payload only; or an item ran into another exception and the run breaks off while more is announced |
| PayloadReports.DeferredErrorsExactly | fastql/execution/execute.py:418-439 | a deferred payload has an error if and only if an executed position below its object reports it |
| PayloadReports.DeferredErrorsExplained | fastql/execution/execute.py:418-439 | each at its position's path, one per path, and following the path through the payload's data meets a null at or before its end |
| PayloadReports.DeferredNullsExplained | fastql/execution/execute.py:418-439 | every null in a deferred payload, its data included, was returned where the type allows it, stands for an unknown field, or has an error of the same payload at or beneath it |
| PayloadReports.DeferredNullExactly | fastql/execution/execute.py:430-434 | a deferred payload's data is null if and only if a bubble chain starts at one of its fields |
| PayloadReports.DeferredIsLocal | fastql/execution/execute.py:418-439 | other data in it is what completing the position there gives |
| PayloadReports.ItemErrorsExactly | fastql/execution/execute.py:441-460 | a streamed item's payload has an error if and only if the item or a position below it reports it |
| PayloadReports.ItemNullsExplained | fastql/execution/execute.py:441-460 | every null in a streamed item's payload, the item included, is explained in the same way |
| PayloadReports.ItemNullExactly | fastql/execution/execute.py:446-451 | a streamed item is null if and only if completing it bubbles or gives null |
| PayloadReports.ItemIsLocal | fastql/execution/execute.py:441-460 | other data in its payload is what completing the position there gives |
| PayloadReports.EveryPayloadExplained | fastql/execution/execute.py:388-460 | in every run, errors and nulls of every payload, the first one included, explain each other |
| Answer.PayloadsAreTheAnswer | fastql/execution/execute.py:388-460 | merging all payloads at their paths gives exactly the one-shot response as a map from paths to leaves, lists and objects |
| Answer.PrefixIsPartialAnswer | fastql/execution/execute.py:399-416 | every prefix of the payloads is a part of that answer |
| Answer.PayloadsAgree | fastql/execution/execute.py:399-416 | no two payloads say different things about one path |
| Answer.TellsIsLookup | fastql/execution/execute.py:649-657 | data with one value per key tells a fact if and only if looking its path up gives it |
| Streaming.StreamedConsecutively | fastql/execution/execute.py:441-460 | the streamed items of a run are those of some lists one after the other, each list's indices consecutive from its initial count to its end; the lists are exactly, with multiplicity, those the operation's groups ask to stream, and each is what stands at its path in the one-shot response |
| Streaming.QueuedInOrder | fastql/execution/execute.py:399-416 | the item payloads to come are those of the queued lists in queue order and then those of exactly the lists that the pending jobs lead to, each whole and in order |
| Streaming.ItemsOnceExactly | fastql/execution/execute.py:388-460 | no streamed item arrives twice if and only if no list is streamed from two groups |
| Streaming.DeliversTwice | fastql/execution/execute.py:388-460 | a list selected with `@stream` both inside and outside a deferred fragment has its items delivered twice |
| StreamedGroups.SelectionLeaves | fastql/execution/execute.py:629-784 | running a selection set queues the streams of its groups, now or through the deferred jobs it leaves, and no others |
| StreamedGroups.StreamedListStands | fastql/execution/execute.py:759-784 | a stream the groups ask for starts at its `@stream` count, holds the rest of the list that stands at its path in the one-shot response, and carries field nodes merged there |
| Validated.ValidatedExecutes | fastql/validation/rules.py:48-58 | a document that passes the cycle, selection and merging rules can be executed, and the nodes collected under one key are one field with one argument map at every depth |
| Validated.ValidatedDelivery | fastql/execution/execute.py:388-460 | so for a validated operation without errors the payloads place at every path what the one-shot response holds there |
| Validated.ValidatedNullsExplained | fastql/execution/execute.py:659-807 | for a validated operation the last case cannot occur: every null was returned by a resolver where the type allows it or has an error at or beneath it |
| FragmentCycles.Validator.CheckNoFragmentCycles | fastql/validation/rules.py:92-94 | the rule records an error if and only if the graph of fragment spreads, nested ones included, has a cycle; it ends on every document |
| FragmentCycles.Validator.DetectFragmentCycle | fastql/validation/rules.py:96-118 | the path-based search finds something if and only if a walk from the name closes on itself or on its path, and reports each set of names once |
| FragmentCycles.SearchFindsCycles | fastql/validation/rules.py:92-118 | there is a cycle if and only if the search from some fragment finds one |
| FragmentCycles.AcyclicExactlyWhenBounded | fastql/validation/rules.py:92-132 | there is no cycle if and only if unfolding spreads is bounded, which is what execution needs to end |
| FieldMerging.ValidatedMerging | fastql/validation/rules.py:511-599 | when all composite types are objects and no introspection field is selected, silence of the selection and merging rules makes every group the executor collects, at every depth, one field with one argument map |
| FieldMerging.CollectedIsGathered | fastql/validation/rules.py:553-594 | whatever execution collects, the rule has looked at |
| FieldMerging.CollectedAlike | fastql/validation/rules.py:511-535 | two nodes execution collects under one key have the same name and argument map when the rule is silent |
| FieldMerging.GatherFine | fastql/validation/rules.py:301-357 | what the rule gathers is valid on the very type it is selected on |
| FieldMergingExact.GathersExactly | fastql/validation/rules.py:553-594 | the rule gathers every field that the selection set leads to through fragments, whatever their conditions and directives, each on a type it is selected on, and nothing else |
| FieldMergingExact.NoConflictExactly | fastql/validation/rules.py:514-536 | comparing all nodes with the first finds nothing if and only if all pairs have the same name and arguments that mean the same |
| FieldMergingExact.GoesOnExactly | fastql/validation/rules.py:538-549 | below a group the rule goes on if and only if the first node with braces is declared with a composite type inside, and then on that type |
| FieldMergingExact.SilentExactly | fastql/validation/rules.py:511-551 | the rule is silent if and only if under every response path all fields agree pairwise in name and in what their arguments mean |
| FieldMergingExact.ValidExactly | fastql/validation/rules.py:301-357 | a selection set is valid if and only if every selection in it, at any depth through fields and inline fragments, passes its own check on the type it stands on |
| FieldMergingExact.OverlapExactly | fastql/validation/rules.py:488-507 | two composite types overlap if and only if some object type is one that fragments on both apply to |
| FieldMergingObject.MergingRule.ValidateFieldMerging | fastql/validation/rules.py:511-551 | the rule, with its dictionary and error list updated in place, records nothing if and only if every key's nodes agree and their merged sub-selections merge |
| FieldMergingObject.MergingRule.FieldsByResponseKey | fastql/validation/rules.py:553-599 | the dictionary holds, per key, exactly the fields found in document order, each fragment once |
| FieldMergingObject.MergingRule.CheckGroup | fastql/validation/rules.py:514-536 | an error is recorded if and only if some node disagrees with the first: one, for the first such node, naming what differs |
| Lexer.Lexer.Advance | fastql/language/lexer.py:101-103 | the current token becomes the next lexeme of the text, or stays when there is none |
| Lexer.Lexer.ReadToken | fastql/language/lexer.py:114-148 | the lexeme found from an offset on, or the syntax error |
| Lexer.Lexer.SkipIgnored | fastql/language/lexer.py:150-163 | the first offset that is neither blank nor in a comment |
| Lexer.Lexer.ReadName | fastql/language/lexer.py:165-171 | a name is as long as it can be |
| Lexer.Lexer.ReadNumber | fastql/language/lexer.py:173-206 | integer part, optional fraction and exponent, or the error |
| Lexer.Lexer.ReadString | fastql/language/lexer.py:221-241 | copying chunks and decoding escapes gives the decoded text and its end, or the error |
| Lexer.Lexer.ReadEscape | fastql/language/lexer.py:243-269 | the character of an escape and its end, or the error |
| Lexer.Lexer.ReadBlockString | fastql/language/lexer.py:271-290 | the raw text of a block string and its end, or the error |
| LexedText.LexingIsLossless | fastql/language/lexer.py:101-148 | on every text the lexemes are in order with only ignored characters between them, and each is what its own span alone lexes to |
| LexedText.LexemeLocal | fastql/language/lexer.py:114-269 | a lexeme depends on its own characters only, as long as what follows cannot prolong it |
| LexedText.IgnoresExactly | fastql/language/lexer.py:150-163 | exactly the characters that are blank or in a comment are skipped before a token: every one of them, and nothing else |
| LexedText.StreamOfLexemes | fastql/language/lexer.py:101-103 | advancing through the text yields the tokens of those lexemes |
| Lexicon.TokenExactly | fastql/language/lexer.py:114-290 | a text is read as one token if and only if it is written as that token: names, integers and floats, strings with every escape and its character, block strings, punctuators, told from characters alone |
| Lexicon.ReadsAsWritten | fastql/language/lexer.py:114-290 | wherever the lexer reads a token in a text, the characters read are written as that token |
| Lexicon.WrittenIsRead | fastql/language/lexer.py:114-290 | a token written in a text is read there as long as what follows cannot prolong it |
| Parser.ParseValue | fastql/language/parser.py:225-283 | a value literal consumes at least one token or fails, so parsing ends |
| Parser.ParseSelectionSet | fastql/language/parser.py:116-121 | a selection set consumes at least one token or fails |
| Parser.ParseDefinitions | fastql/language/parser.py:36-41 | a document consumes at least one token or fails |
| ParserObject.ParseSource | fastql/language/parser.py:20-41 | the parser object, advancing its lexer, keeping its last token and appending to node lists, returns what the parsing functions return, and for every node the location of exactly its tokens; the locations nest |
| ParserObject.Cursor.ValueLiteral | fastql/language/parser.py:225-256 | value literals: the node, the tokens consumed, and the location from its first token to the last one consumed, at every depth |
| ParserObject.Cursor.ListItems | fastql/language/parser.py:258-265 | list items up to the closing bracket, collected in a loop with their locations |
| ParserObject.Cursor.SelectionSetNode | fastql/language/parser.py:116-121 | selections between braces, at least one, and the location from brace to brace |
| ParserObject.Cursor.FieldNode | fastql/language/parser.py:128-149 | a field with alias, arguments, directives and braces, with its location and theirs |
| ParserObject.Cursor.FragmentNode | fastql/language/parser.py:151-169 | a spread or an inline fragment with its location |
| ParserObject.Cursor.TypeReference | fastql/language/parser.py:285-295 | named, list and non-null type references with their locations |
| ParserObject.Cursor.DefinitionNode | fastql/language/parser.py:43-52 | an operation, its shorthand, or a fragment definition with its location |
| ParserObject.Cursor.Advance | fastql/language/parser.py:313-315 | one token is consumed and kept as the last token, or the lexer's error |
| Grammar.DocumentParses | fastql/language/parser.py:36-185 | the parser reads every document the grammar can express back from its tokens |
| Grammar.ValueParses | fastql/language/parser.py:225-283 | the parser reads every expressible value back from its tokens |
| GrammarSound.DocumentSound | fastql/language/parser.py:36-185 | a source that parses consists of exactly the tokens of the document it parses to, up to redundant `query` keywords, and that document is expressible |
| GrammarSound.SelectionSound | fastql/language/parser.py:123-169 | a parsed selection consists of exactly its own tokens |
| GrammarSound.TypeSound | fastql/language/parser.py:285-300 | a parsed type reference consists of exactly its own tokens and is never doubly non-null |
| Locations.LocationsNest | fastql/language/parser.py:349-350 | from each node's first token's start to its last token's end, children's locations lie inside their parent's, in order and disjoint, for every source that parses |
| Locations.LexemesAreListed | fastql/language/parser.py:313-315 | advancing the lexer from a listed token gives the next of the list: the last token kept is always the one before the current token |
| Spans.DefinitionFits | fastql/language/parser.py:56-185 | the span computed for a definition starts at its first token, takes exactly as many tokens as the definition has, and nests |
| PrintedText.ShiftedLines | fastql/language/printer.py:27-32 | splitting into lines, shifting and joining is indentation after each line break |
| PrintedText.StringReads | fastql/language/printer.py:111-136 | an escaped and quoted string lexes to the text it was printed from |
| Printer.EscapeString | fastql/language/printer.py:117-136 | the loop appends each character's escape in order |
| RoundTrip.PrintedTokens | fastql/language/printer.py:13-144 | printed text lexes to exactly the document's tokens: indentation, separators and escapes are invisible |
| RoundTrip.ParsesBack | fastql/language/printer.py:13-144 | printing a document without block strings and parsing it gives the document back |
| Reprint.ReprintingIsStable | fastql/language/printer.py:13-24 | for every source without block strings, what it parses to is printed to a text that parses to the same document |
| WebSocket.RunsAreSafe | fastql/integrations/websocket.py:31-117 | when the event loop runs a finished task's callback before the reader that awaits the task, in every interleaving: at most one live task per id, results then at most one completion or failure per accepted operation, nothing before the acknowledgement or after a processed complete until the id is accepted again, no task outlives the handler |
| WebSocket.StepSound | fastql/integrations/websocket.py:31-163 | every step of reader, tasks, send lock and callbacks keeps the invariant behind those promises, on the other event loops as long as no completed id is accepted again |
| WebSocket.SafeExactlyWithoutOvertaking | fastql/integrations/websocket.py:88-117 | over all clients the promises hold in every run if and only if a finished task's callback runs before the reader that awaits the task |
| WebSocket.SafeExactly | fastql/integrations/websocket.py:31-117 | for every event loop and every set of ids a client may have accepted again after completing them, the promises hold in all runs if and only if the loop lets the callback run first or none of the ids can be subscribed |
| WebSocket.FreshIdsAreSafe | fastql/integrations/websocket.py:31-117 | on every event loop the promises hold in every run in which no completed id is accepted again |
| WebSocket.OperationOutlivesHandler | fastql/integrations/websocket.py:88-117 | otherwise, for every id that is not empty, a run of fourteen steps that subscribes, completes and subscribes again under it leaves a live task after the handler has left |
| WebSocketAnswers.EveryMessageAnswered | fastql/integrations/websocket.py:40-110 | in every run the reader has answered each message received exactly once and in order, but for the one it is busy with: acknowledgement, pong, refusal, acceptance or the processing of a complete |
| WebSocketAnswers.TakenExactly | fastql/integrations/websocket.py:70-103 | an id is taken if and only if an operation was accepted under it and since then neither a complete of it was received nor the callback of a task of that id has run |
| WebSocketAnswers.TasksSayAll | fastql/integrations/websocket.py:119-165 | every task has sent what it produced, in order, but for what it is waiting to send or was interrupted with, and one that ended uncancelled has sent its completion or failure |
| WebSocketAnswers.StopSilences | fastql/integrations/websocket.py:98-117 | once a complete of its id is received or the connection is lost, an active task sends nothing more |
| WebSocketAnswers.OneSender | fastql/integrations/websocket.py:32-37 | at most one message is being sent at a time |
| DataLoader.EachFutureExpectedOnce | fastql/dataloader.py:88-193 | in every run each expected future is in exactly one of queue, one running batch or a cancelled one, and the pending futures are exactly the expected ones nobody gave up; a dispatch is scheduled if and only if something is queued |
| DataLoader.DoneStaysDone | fastql/dataloader.py:159-193 | no step touches a future that is done: nothing is resolved twice, primed values included |
| DataLoader.ResolvedAsLookedUp | fastql/dataloader.py:88-183 | a resolved future holds what direct lookup of its own key gives when `load` created it, and the primed value when `prime` did |
| DataLoader.LoadReturnsOwnKey | fastql/dataloader.py:88-103 | `load` returns a future of the same cache key, and without caching a new one of that very key |
| DataLoader.FetchedAtMostOnce | fastql/dataloader.py:88-157 | with caching and without clears or failed batches the keys dispatched over the whole run have pairwise distinct cache keys |
| DataLoader.BatchesCoverQueue | fastql/dataloader.py:141-157 | a tick's batches concatenate to the queue in order, are non-empty and within the limit |
| DataLoader.StepSound | fastql/dataloader.py:88-193 | every load, clear, prime, tick, completion and cancellation keeps the invariant behind these promises |
| DataLoader.FinishOutcome | fastql/dataloader.py:159-193 | a completed batch changes pending futures of its own only, leaves none of them pending unless it was cancelled, and resolves with their own results |
| LoaderHistory.CachedExactly | fastql/dataloader.py:88-193 | in every run a key is cached as a future if and only if a load or prime of it made that future and nothing has dropped the key since: no clear, and no failed batch with such a key |
| LoaderHistory.LoadsCached | fastql/dataloader.py:88-103 | load returns a future made before if and only if the key is cached as that future |
| LoaderHistory.OutcomesExactly | fastql/dataloader.py:159-193 | no step changes a future but the completion of a batch that holds it while pending, with its own result or a rejection, and giving it up |
| LoaderHistory.PrimedExactly | fastql/dataloader.py:119-137 | a primed future holds the primed value or failure |
| LoaderHistory.BatchesFull | fastql/dataloader.py:141-151 | all batches of a tick but the last are full, and without a limit there is one |
| DataLoader.CancelledBatchStrands | fastql/dataloader.py:159-183 | a cancelled batch function leaves its futures pending with nothing queued or running |
| DataLoader.PendingExactlyWhenStranded | fastql/dataloader.py:88-193 | with nothing queued or running a future is pending if and only if a cancelled batch held it and nobody gave it up |
| DataLoader.StrandedWaitsForever | fastql/dataloader.py:88-193 | such a future stays pending through every further load, clear, prime, tick and completion, until it is given up itself |
| DataLoaderObject.Loader.LoadOne | fastql/dataloader.py:88-103 | cache, queue, flag and futures after `load`, and the future returned |
| DataLoaderObject.Loader.ClearOne | fastql/dataloader.py:109-112 | the key's cache entry is gone, all else as it was |
| DataLoaderObject.Loader.ClearEverything | fastql/dataloader.py:114-117 | the cache is empty, all else as it was |
| DataLoaderObject.Loader.PrimeOne | fastql/dataloader.py:119-137 | a completed future is cached unless the key has one |
| DataLoaderObject.Loader.DispatchQueue | fastql/dataloader.py:141-151 | the queue is emptied into running batches chunk by chunk |
| DataLoaderObject.Loader.FinishBatch | fastql/dataloader.py:159-183 | aligned results are handed out, anything else fails what is pending and uncaches the batch |
| DataLoaderObject.Loader.FailPending | fastql/dataloader.py:185-193 | what is not done is rejected, every key of the batch leaves the cache |
| TypeMap.Schema.InitializeTypeMap | fastql/types/schema.py:83-91 | on every finite, possibly cyclic type graph the walk ends; it raises if and only if two distinct reachable types share a name, and otherwise maps exactly the names of the reachable types to those objects |
| TypeMap.Schema.CollectNamedType | fastql/types/schema.py:99-118 | entering a type enters all it leads to and keeps what was there, or a clash exists |
| TypeMap.Schema.CollectTypeReference | fastql/types/schema.py:93-97 | wrappers are unwrapped before the type is entered |
| TypeMap.ClosedIsAll | fastql/types/schema.py:83-129 | a map closed under mentions that holds the roots is exactly the reachable types, without clash |
| TypeMap.MentionsExactly | fastql/types/schema.py:99-129 | a type leads to exactly its interfaces, what its fields and their arguments refer to, its members, and what its input fields refer to, under any wrappers |
| Values.CoercionsAgree | fastql/execution/values.py:72-113 | when a variable-free literal coerces, its JSON reading coerces to the same value, unless `-0` stands where an ID is expected |
| Values.IdAgreesExactly | fastql/types/scalars.py:77-86 | an integer token and its JSON reading agree as an ID if and only if the token is not `-0` |
| Values.LiteralConforms | fastql/execution/values.py:165-212 | a variable-free literal coerces to a value without a null at a non-null position when defaults have none |
| Values.VariableSkipsNonNull | fastql/execution/values.py:166-172 | with a variable the non-null check is skipped |
| Values.ConformsExactly | fastql/execution/values.py:165-212 | a literal coerces to a value without a null at a non-null position if and only if every variable that comes into it has a value conforming to the type of its position |
| Values.FieldsConformExactly | fastql/execution/values.py:195-212 | the same of the fields an input object is made of, also when a Python type is constructed from them |
| Values.CanonicalExactly | fastql/types/scalars.py:83-86 | an integer token is the decimal text of its value if and only if it is not `-0` |
| Values.CoerceInputObject | fastql/execution/values.py:95-113 | the loop over the declared fields fills the dictionary as specified, or fails when some field does |
| Values.InputObjectFromAst | fastql/execution/values.py:195-212 | the same for literals |
| Coerced.ReadExactly | fastql/execution/values.py:72-113 | a raw value coerces to exactly what it stands for at its type, and fails if and only if it stands for nothing: Int itself within 32 bits, Float, String, Boolean and ID by kind, an enum name its declared value, lists item by item or wrapped, of each input field the last value given, else its default, else nothing unless it is non-null |
| Coerced.LiteralReadExactly | fastql/execution/values.py:165-212 | the same of literals: an Int literal is the number whose decimal text it is, a variable its value whatever the type |
| Coerced.FractionWritten | fastql/types/scalars.py:47-50 | a number with a fraction is the integer of its digits with the decimal point moved back by the fraction's length |
| Coerced.PlainMantissa | fastql/types/scalars.py:47-50 | without an exponent a number is its digits and fraction |
| Coerced.ExponentWritten | fastql/types/scalars.py:47-50 | an exponent moves the decimal point of what stands before it |
| Coerced.ShiftScales | fastql/types/scalars.py:47-50 | moving the decimal point multiplies or divides by a power of ten |
| Codec.Base64RoundTrip | fastql/relay.py:32-49 | text encoded as UTF-8 and base64 decodes to itself, for every text |
| Codec.Utf8Exactly | fastql/relay.py:160-166 | bytes decode to a text if and only if they are its UTF-8 encoding: overlong forms, surrogates and stray bytes are refused |
| Codec.DecodesOnlyEncoded | fastql/relay.py:160-166 | base64 text that decodes is what its bytes are encoded as, unused bits of a last digit before padding aside |
| Codec.ParsesDecimal | fastql/relay.py:155-166 | the decimal text of every integer parses to it |
| Relay.CursorRoundTrip | fastql/relay.py:155-166 | every offset survives its cursor |
| Relay.CursorText | fastql/relay.py:155-157 | a cursor is the base64 text of `cursor:` and the offset |
| Relay.GlobalIdRoundTrip | fastql/relay.py:32-49 | a global id gives type name and inner id back if and only if the type name has no colon |
| Relay.GlobalIdExactly | fastql/relay.py:32-49 | a global id is the base64 text of type name, colon and inner id, read back at the first colon; anything else gives two empty strings |
| Relay.ConnectionFromList | fastql/relay.py:176-224 | negative counts are errors; else the edges are the last `last` of the first `first` of the window the cursors leave, each with its own cursor, and the page info is exact |
| Relay.Offsets | fastql/relay.py:197-209 | narrowing the offsets step by step gives the page's start and end |
| Relay.NextPageExact | fastql/relay.py:216-223 | without `first`, `hasNextPage` is false; with it, it means more than `first` in the window if and only if no `before` cursor overshoots a window that `first` does not cut |
| Relay.PreviousPageExact | fastql/relay.py:216-223 | without `last`, `hasPreviousPage` is false; with it, it means more than `last` of the first ones if and only if no `after` cursor lies before the data without `last` cutting anything off |
| Relay.WindowIsBetween | fastql/relay.py:197-204 | the window is one stretch of the data and holds exactly the positions strictly between the cursors |
| Relay.EdgesStand | fastql/relay.py:211-214 | an edge's cursor leads to the position of its node, and edges stand at consecutive positions between the cursors |
| Relay.SpuriousNextPage | fastql/relay.py:216-223 | a `before` cursor beyond the data announces a page that is not there |
| Relay.PageForward | fastql/relay.py:176-224 | paging forward by end cursor while a next page is announced ends and lists the data once, in order |

## Left out

- RoundTrip.ParsesBack: excludes block strings, since the printer does not escape three quotes inside them; names and numbers have to be lexically right.
- Lexer.Lexer.ReadBlockString: gives the raw text; removing the common indentation of block strings is not part of this model.
- Lexer.Lexer.ReadEscape: a lone surrogate escape, which is no character in Dafny, reads as U+FFFD.
- Delivery.IncrementalPreservesMeaning: is about runs without errors, because streamed items that bubble become null whatever their type; labels of `@defer` and `@stream` are left aside.
- Answer.PayloadsAreTheAnswer: compares what stands at each path; the order of object keys across payloads is not compared.
- Schedule.ScheduleIndependence: leaf failures are reported as GraphQL errors here; a crashing list item makes the event loop drop its siblings' reports.
- ExecutorObject.ExecutorState.AwaitItems: an iterable that raises half way, and siblings of a crashing item that are still running, are not modelled; items are all awaited.
- ExecutorObject.ExecutorState.ExecuteOneField: dependency injection, permissions, extensions and argument coercion inside resolver calls are part of the resolver parameter, which may raise; errors that several fields share as one object are not modelled.
- Executor.WalkSize: `weight` only certifies termination and has no counterpart in the source; the recursion limit of the source language is not modelled.
- FieldMerging.ValidatedMerging: the other validation rules (arguments, directives, variables, single subscription field) are not modelled, and neither are interface and union types in this theorem, for which the rule does not compare parent types.
- FieldMergingObject.MergingRule.ValidateFieldMerging: which key is looked at first, and so the order of errors, is left open; the verdict does not depend on it.
- WebSocket.RunsAreSafe: sends do not fail, source streams end when they are closed, and cancelling the handler itself is not a step; whether awaiting a finished task yields first, which depends on the version of the event loop, is the parameter `eager`.
- DataLoader.EachFutureExpectedOnce: `load_many` and the per-request registry `get_loader` are left out.
- Selected.StreamedExactly: a variable given as `initialCount` that is neither an integer nor a boolean counts as zero; labels are left aside.
- Values.ConformsExactly: takes Python names of an input type's fields to be distinct, and says nothing of an object that a user's constructor makes.
- Values.CoercionsAgree: custom scalars, variable coercion and argument coercion (`fastql/execution/values.py:30-54`, `136-162`) are left out; rounding to a float is a parameter; digits other than ASCII and digit-count limits of integers are not modelled.
- Relay.ConnectionFromList: the node registry and `resolve_node` are left out.
- Error messages, error positions and logging, since only which error is raised where matters to the properties.
- HTTP, ASGI and framework adapters, subscriptions' source streams, SDL rendering, introspection, federation, tracing and the schema builder.

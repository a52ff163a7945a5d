# Verification models for the Canary server

This project models the self-contained parts of the Canary game server that are hard to get right, and proves
properties of the models for all inputs and all runs. It is checked with `dafny verify dfyconfig.toml`.

- **OTB files.** `OtbGrammar` holds the format: the printer (START, raw type byte, escaped properties, children, END), the
  language it prints into, and the marker-by-marker recogniser. `OtbLoader` is `OTB::Loader` on mutable `Node` objects
  with its explicit stack. `PropStreams` are the property streams. `FileStreams` is the one-pass `FileStream`, proved to
  read what the tree reader reads. `MapNodes` are the town and waypoint loops of `IOMap`.
- **Asynchronous creature work.** `AsyncBuckets` is a state machine with one step for each locked section and each
  flag update; `AsyncDrain` shows that it runs dry and `AsyncOrder` that its buckets are first in, first out;
  `AsyncBucketCode` proves the locked sections as written against the state machine's; `CreatureTasks` is one creature's task list, flag word and snapshot execution.
- **Item persistence.** `ItemAttributes` (numbered attributes, the ordered custom map), `ItemFormat` (the switch over
  attribute bytes, creation, subtypes), `ItemSurvival` (what comes back, attribute by attribute), `ItemTrees` (nested
  containers) and `ItemStore` (the same in place on an item and the streams).
- **Batched inserts.** `DbInsert` is `DBInsert`: the VALUES text, the cutting by `rfind`, and what the server receives.
- **Ledgers and indexes.** `ConditionCache`, `EventIndex`, `DeathRewards`, `CharmLedger` (with `RuneBits`) and
  `CharmBooks`, which says when its books add up in plain numbers, `PreySlots` with `PreySlotCode` and `PreyGridEnd`,
  which says when the drawing of a grid can end, and `BossBonus`. `CharmOutcomes` and `PreyOutcomes` say field by field
  what each request achieves, and that a refused one changes nothing.
- `Bytes`, `Lists`, `Options` and `Totals` are the shared vocabulary.

Every mutable class is proved against pure functions (`Parse`, `GetInt`, `Split`, `Unserialize`, `Apply`, ...), and the
properties are lemmas about those functions.

## What the code does not promise

Some natural expectations are false of the code. Each is stated here with the condition under which it holds, and the
lemma that proves both directions; the second lemma, where one is named, is at an input that fails.

- A row containing `),(` can be cut in two by `DBInsert::execute`. No cut position below the query limit cuts a row if and
  only if no row contains it within the reach of such a position (`DbInsert.NeverCutsIffSafe`, `DbInsert.UnsafeRowIsCut`).
- A printed town or waypoint name is read back if and only if it has at most 8191 bytes, none of them 0xFD or above
  (`MapNodes.ReadPrintedName`): `getString` does not unescape.
- A failed `endNode` or `startNode` restores the position if and only if its lookahead took as many bytes as it gives back:
  inside a node an escaped byte takes two, and the end of the file gives none (`MapNodes.FailedEndRestores`,
  `MapNodes.FailedStartRestores`).
- An item does not always come back as it was saved: charges that ran out return as the type's own, action ids of immovable
  items and unknown attributes are dropped, texts over 65535 bytes vanish, activated rings are created as their plain form,
  an attribute present with value zero may come back absent. `ItemSurvival.ComesBackIff` gives the exact condition.
- An item whose type is no longer registered is dropped, but its attributes stay in the stream
  (`ItemTrees.UnregisteredIsNotSkipped`). Inside a container the siblings still to come are then looked for in them
  (`ItemTrees.UnregisteredInside`); where none is to come, loading the container fails if and only if the dropped item has
  any attribute or is itself a container, and otherwise ends one byte early (`ItemTrees.UnregisteredFirstChild`).
- `calculateLootBonus(calculateBossPoints(b)) == b` fails from 32864 on, although the points still fit 32 bits: the radicand
  is computed in 32 bits (`BossBonus.InverseIff`).
- A batch of boss kills that jumps over a level pays only the level it ends on (`BossBonus.LevelsPaidIff`,
  `BossBonus.JumpedLevelIsLost`).
- The experience handed out can exceed the loss when the 32-bit damage sum wraps (`DeathRewards.ExperienceBoundIff`,
  `DeathRewards.HardHitsExceed`).
- A bestiary entry can pay its charm points more than once: it pays once, however the kills come in, if and only if it
  takes kills to complete it and its first two stages do not lie behind the last (`CharmLedger.PaysOnceIff`,
  `CharmLedger.PaysForNothing`).
- Charm points held and spent do not always add up to the maximum, whose 32 bits can wrap without theirs. They do after a
  request if and only if a kill among them does not wrap one and not the other (`CharmBooks.StepBooksIff`,
  `CharmBooks.RunBooksIff`, `CharmBooks.LosesCount`), and they do in every run where the bestiary is ordered as above
  (`CharmBooks.PointsAlwaysExact`).
- A new prey slot rolls its percentage before its type, so the two belong together only for experience and loot
  (`PreySlots.NewSlotPercentIff`).
- A creature in hand of a pass that emptied its bucket can be overtaken by one queued meanwhile, where the dispatcher runs
  another pass of the bucket before the first puts its rest back (`AsyncOrder.OvertakenInHand`). One that is still queued,
  or in hand of a pass that left others behind, cannot (`AsyncOrder.FirstInFirstOut`).
- The drawing of a prey grid can reach a point from which no draws fill it: passed over creatures are lost for the drawing.
  It never does if and only if each of the four star classes has at least as many eligible creatures outside the blacklist
  as its stage starts with (`PreyGridEnd.NeverStuckIff`, `PreyGridEnd.OneStarDeadEnd`).
- The condition counters are sixteen bits wide: they stay right until one type is listed 65536 times
  (`ConditionCache.StepAgreesIff`, `ConditionCache.FullCounterIsLost`).

## Model

| member | source | states |
|---|---|---|
| `OtbGrammar.ParseExact` | src/io/fileloader.cpp:39-90 | the stack parser accepts bytes exactly when they are one well-formed document followed by raw text, and builds that document; every property range is raw text, without an unescaped marker |
| `OtbGrammar.Accepts` | src/io/fileloader.cpp:39-90 | every well-formed document is accepted, whatever raw text follows |
| `OtbGrammar.Unambiguous` | src/io/fileloader.cpp:39-90 | no file has two readings |
| `OtbGrammar.RoundTrip` | src/io/fileloader.cpp:39-106 | for every tree the parser and `getProps` on the printed bytes give the same shape, types and property bytes, 0xFD to 0xFF included |
| `OtbGrammar.EscapeConcat` | src/io/fileloader.cpp:92-106 | escaping distributes over concatenation, so fields may be written one by one |
| `OtbGrammar.RawTextConcat` | src/io/fileloader.cpp:92-106 | raw texts may be joined, and unescape to the joined values |
| `OtbLoader.Loader.Open` | src/io/fileloader.cpp:15-30 | files of 7 bytes or fewer and foreign identifiers are refused, the wildcard is accepted, nothing else is |
| `OtbLoader.Loader.ParseTree` | src/io/fileloader.cpp:39-90 | the loop over the mutable node stack returns a fresh node tree showing exactly the document of the file, the children of a node all different objects, or throws, as the recogniser says |
| `OtbLoader.EnterChild` | src/io/fileloader.cpp:51-65 | a START closes the properties of the open node and opens a new last child; all other open nodes keep what they show |
| `OtbLoader.LeaveNode` | src/io/fileloader.cpp:66-73 | an END completes the innermost node, which then shows its document |
| `OtbLoader.Loader.GetProps` | src/io/fileloader.cpp:92-106 | the running `lastEscaped` flag yields the unescaped bytes of the node's range; false for an empty range |
| `PropStreams.PropStream.Read` | src/io/fileloader.hpp:68-87 | a read takes exactly its width from what is ahead, or fails and moves nothing |
| `PropStreams.PropStream.ReadString` | src/io/fileloader.hpp:89-108 | a length-prefixed string, or failure |
| `PropStreams.PropStream.Skip` | src/io/fileloader.hpp:110-117 | skipping takes exactly as many bytes, or fails and moves nothing |
| `PropStreams.PropWriteStream.WriteString` | src/io/fileloader.hpp:150-159 | a string over 65535 bytes is stored as the empty one |
| `PropStreams.TakeStringPut` | src/io/fileloader.hpp:89-159 | what a written string reads back as, for every length |
| `PropStreams.TakeIntPut` | src/io/fileloader.hpp:68-148 | a written integer reads back, leaving the rest |
| `Bytes.LeAt` | src/io/fileloader.hpp:140-148 | integers are written with their lowest byte first |
| `FileStreams.FileStream.GetEscapedByte` | src/io/filestream.hpp:86-102 | one value and the position behind it, in all three failure cases too |
| `FileStreams.FileStream.Get` | src/io/filestream.hpp:41-131 | the getters agree with the read function inside and outside a node, zero on failure |
| `FileStreams.FileStream.ReadString` | src/io/filestream.cpp:40-54 | strings of 1 to 8191 raw bytes, the empty string otherwise |
| `FileStreams.FileStream.Start` | src/io/filestream.cpp:72-84 | the lookahead of `startNode`, its rewinding and the depth |
| `FileStreams.FileStream.End` | src/io/filestream.cpp:86-94 | the lookahead of `endNode`, its rewinding and the depth |
| `FileStreams.FileStream.Prop` | src/io/filestream.cpp:60-70 | the lookahead of `isProp` |
| `FileStreams.StreamingRefinesProps` | src/io/filestream.hpp:41-131 | any series of stream reads over a node's raw properties gives the values of the same series on the `getProps` buffer and advances over exactly the raw bytes of those values |
| `FileStreams.StreamingOverrun` | src/io/filestream.hpp:86-131 | the two readers agree exactly as long as the buffer lasts; one read further the stream has passed the marker |
| `MapNodes.ParseTowns` | src/io/iomap.cpp:263-287 | the loop computes the town function of the stream, filling the map |
| `MapNodes.ParseWaypoints` | src/io/iomap.cpp:289-310 | the loop computes the waypoint function of the stream |
| `MapNodes.ReadPrintedName` | src/io/filestream.cpp:40-54 | a printed name is read back exactly when short enough and free of bytes that need escaping |
| `MapNodes.TownsRoundTrip` | src/io/iomap.cpp:263-287 | a printed town node rebuilds the last-wins map, from START to just past END, at the depth of entry |
| `MapNodes.WaypointsRoundTrip` | src/io/iomap.cpp:289-310 | the same for waypoints |
| `MapNodes.TownMapLast` | src/io/iomap.cpp:263-287 | the map holds the last town of each id |
| `MapNodes.TownMapOther` | src/io/iomap.cpp:263-287 | and nothing else changes |
| `MapNodes.FailedEndRestores` | src/io/filestream.cpp:56-94 | when exactly a failed `endNode` restores the position |
| `MapNodes.FailedStartRestores` | src/io/filestream.cpp:56-94 | when exactly a failed `startNode` restores the position |
| `MapNodes.PropLookahead` | src/io/filestream.cpp:60-70 | `isProp` tells whether the next value is the property, goes past it only if asked to, and otherwise restores the position exactly after one byte |
| `AsyncBuckets.StepKeepsInv` | src/creatures/creature.cpp:2087-2202 | every step of every thread keeps slots, tickets, membership and homes consistent |
| `AsyncBuckets.RunKeepsInv` | src/creatures/creature.cpp:2087-2202 | so does every interleaving |
| `AsyncBuckets.NoLostWakeup` | src/creatures/creature.cpp:2087-2202 | in every reachable state a bucket with work is scheduled, and a scheduled bucket has exactly one ticket |
| `AsyncBuckets.SingleMembership` | src/creatures/creature.cpp:2087-2249 | no creature is twice in queues, batches and rejected lists together, and a living one is there exactly when its running flag is up |
| `AsyncBuckets.RunConserves` | src/creatures/creature.cpp:2087-2202 | over any run every requested entry is still pending or was retired, once |
| `AsyncBuckets.StepConserves` | src/creatures/creature.cpp:2087-2202 | the same for one step |
| `AsyncDrain.StepDrains` | src/creatures/creature.cpp:2112-2186 | with a batch limit of at least one every internal step lowers the measure, deadlines and refusals included |
| `AsyncDrain.ReachedIsFed` | src/creatures/creature.cpp:2112-2202 | in every state reached with batch limits of at least one, a pass that has consumed nothing has an entry in hand |
| `AsyncDrain.RunsDry` | src/creatures/creature.cpp:2112-2202 | after any such history a run without requests has at most as many internal steps as the measure of the state reached, and where none is left every bucket is empty |
| `AsyncDrain.SomeStepEnabled` | src/creatures/creature.cpp:2112-2202 | while an activity is under way, some step is enabled |
| `AsyncDrain.QuietMeansEmpty` | src/creatures/creature.cpp:2112-2202 | when all activities are over, all buckets are empty and no living creature is stuck with its flag |
| `AsyncOrder.FirstInFirstOut` | src/creatures/creature.cpp:2087-2202 | in every reachable state, whoever is queued while a creature waits in the bucket stays behind it over every run in which that creature is not yet served or drained, requeued slices included: no batch has the later one without the earlier one in front of it |
| `AsyncOrder.StepKeepsBehind` | src/creatures/creature.cpp:2087-2202 | one step of any thread keeps that order |
| `AsyncOrder.ArrivesLast` | src/creatures/creature.cpp:2091-2099 | a creature is queued behind all that wait in the bucket, or are in hand of the pass that left some there |
| `AsyncOrder.NoBatchBefore` | src/creatures/creature.cpp:2122-2164 | a batch that has the later one has the earlier one in front of it |
| `AsyncOrder.OvertakenInHand` | src/creatures/creature.cpp:2122-2164 | a creature in hand of a pass that emptied its bucket is overtaken where another pass starts before the first requeues |
| `AsyncOrder.TurnOf` | src/creatures/creature.cpp:2138-2155 | at its turn a creature that is gone is dropped, one now seen by a player is sent on from the background without running, any other runs |
| `AsyncBucketCode.CreatureAsyncTaskBucket.EnqueueSection` | src/creatures/creature.cpp:2091-2099 | the creature goes to the back of the queue, the bucket is scheduled, and the caller schedules exactly if it was not; so the state machine has it |
| `AsyncBucketCode.CreatureAsyncTaskBucket.BatchSection` | src/creatures/creature.cpp:2122-2136 | a bounded batch is the front of the queue, in order |
| `AsyncBucketCode.CreatureAsyncTaskBucket.RequeueUnprocessed` | src/game/scheduling/dispatcher_policy.hpp:223-234 | the unconsumed suffix goes back in front, in order |
| `AsyncBucketCode.CreatureAsyncTaskBucket.RequeueSection` | src/creatures/creature.cpp:2156-2164 | the deadline section is the state machine's |
| `AsyncBucketCode.CreatureAsyncTaskBucket.RollbackSection` | src/creatures/creature.cpp:2188-2195 | a rejected bucket is emptied and its flag falls |
| `CreatureTasks.DeferredIsRaisedLast` | src/creatures/creature.hpp:995-1012 | a flag is deferred exactly when it was raised during the snapshot and not lowered later |
| `CreatureTasks.ActsInTurn` | src/creatures/creature.cpp:2204-2240 | every task of the snapshot has its turn, its script between those before and after it |
| `CreatureTasks.Creature.ExecuteAsyncTasks` | src/creatures/creature.cpp:2204-2240 | the tasks present at entry run once in order; what is added or raised meanwhile survives and leaves the creature queued, or retained after a rejection |
| `CreatureTasks.Creature.SendAsyncTasks` | src/creatures/creature.cpp:2242-2249 | the creature is queued at most once, and a refused admission lowers the flag again |
| `CreatureTasks.Creature.AddAsyncTask` | src/creatures/creature.hpp:983-989 | the task is kept, and queued unless a snapshot runs or the creature is queued |
| `CreatureTasks.Creature.SetAsyncTaskFlag` | src/creatures/creature.hpp:995-1012 | raising and lowering, inside a snapshot too |
| `ItemAttributes.AddCustomValid` | src/items/functions/item/attribute.cpp:115-143 | setting a custom attribute keeps the map ordered with lower-case keys and changes that key only |
| `ItemAttributes.CustomSurvives` | src/items/item.cpp:1535-1546 | the custom map comes back exactly when every key and text fits the length field |
| `ItemAttributes.CustomValueRoundTrip` | src/items/functions/item/custom_attribute.cpp:88-153 | each kind of custom value comes back as written |
| `ItemAttributes.EntriesRoundTrip` | src/items/item.cpp:1300-1324 | the entry loop adds exactly the stored entries, in order, and leaves the rest |
| `ItemSurvival.ReadRecord` | src/items/item.cpp:926-1553 | every written attribute, read in any context, has its own effect and leaves the stream behind it |
| `ItemSurvival.AttributesComeBack` | src/items/item.cpp:1365-1553 | the reading loop over what `serializeAttr` wrote ends behind it with the restored item |
| `ItemSurvival.RestoredInt` | src/items/item.cpp:926-1553 | which number every numbered attribute has afterwards |
| `ItemSurvival.RestoredText` | src/items/item.cpp:926-1553 | which text every text attribute has afterwards |
| `ItemSurvival.RestoredSubType` | src/items/item.cpp:881-924 | stack size, charges and fluid afterwards: they share one number on disk |
| `ItemSurvival.RestoredCustom` | src/items/item.cpp:1170-1186 | the custom map afterwards, hireling lamps migrated |
| `ItemSurvival.RunningDuration` | src/items/item.cpp:3635-3642 | with a running or stopping decay the duration afterwards is what was left until the timestamp, never less than zero, both clocks taken as 32-bit numbers |
| `ItemSurvival.RestingDuration` | src/items/item.cpp:3635-3642 | in every other decay state it is the 32-bit duration itself, never less than zero |
| `ItemSurvival.OldListDates` | src/items/item.cpp:1247-1276 | the deprecated list dates a wrapped item without a store date, and changes nothing else but the custom map |
| `ItemSurvival.ComesBackPlain` | src/items/item.cpp:1365-1553 | ten worn forms come back as their plain form, every other item and every container with its own id |
| `ItemSurvival.ComesBackIff` | src/items/item.cpp:1365-1553 | an item comes back unchanged exactly when each attribute fits its field, is saved at all, and the subtype rules hold |
| `ItemTrees.LoadSaved` | src/io/iomapserialize.cpp:130-259 | loading a saved tree gives every item restored, children in the same order, and leaves exactly the rest |
| `ItemTrees.ItemRoundTrip` | src/io/iomapserialize.cpp:130-259 | it is the same tree exactly when everything in it survives |
| `ItemTrees.SavedWhileDecaying` | src/io/iomapserialize.cpp:130-259 | a tree saved while its item decays is loaded with what was left on the clock |
| `ItemTrees.SavedAtRest` | src/io/iomapserialize.cpp:130-259 | in every other decay state with its own duration |
| `ItemTrees.LoadAll` | src/io/iomapserialize.cpp:130-145 | children saved in reverse and pushed to the front keep their order |
| `ItemTrees.UnregisteredIsNotSkipped` | src/io/iomapserialize.cpp:147-187 | an unregistered item is dropped, and the stream stands directly behind its id |
| `ItemTrees.UnregisteredInside` | src/io/iomapserialize.cpp:130-187 | inside a container the siblings read before it come back, and the others are looked for in its attributes |
| `ItemTrees.UnregisteredFirstChild` | src/io/iomapserialize.cpp:130-187 | as the last child to be read it makes the container fail exactly when it has attributes; else the container ends one byte early |
| `ItemStore.Item.ReadAttr` | src/items/item.cpp:926-1363 | the switch in place on the item and the stream, every error case included |
| `ItemStore.Item.UnserializeAttr` | src/items/item.cpp:1365-1376 | the loop over attribute bytes |
| `ItemStore.Item.ReadCustomEntries` | src/items/item.cpp:1300-1324 | the loop over custom attributes |
| `ItemStore.Item.ReadOldCustomEntries` | src/items/item.cpp:1247-1276 | the deprecated list, which also dates wrapped store items |
| `ItemStore.Item.SetSubTypeOf` | src/items/item.cpp:913-924 | where a subtype number goes, by item type |
| `ItemStore.SerializeAttr` | src/items/item.cpp:1382-1553 | the attributes are appended one after another in the fixed order |
| `ItemStore.LoadItemFrom` | src/io/iomapserialize.cpp:147-187 | one item with its contents, in place on the stream |
| `ItemStore.LoadContainerFrom` | src/io/iomapserialize.cpp:130-145 | the counting loop and the closing zero |
| `ItemStore.SaveItemTo` | src/io/iomapserialize.cpp:242-259 | id, attributes, children last first, closing zero |
| `DbInsert.DBInsert.AddRow` | src/database/database.cpp:415-451 | when a row is accepted; no row is lost or reordered, a refused one included; what is sent meanwhile is all pending batches or a first part of them, no statement over the limit by more than one byte |
| `DbInsert.DBInsert.SendBatches` | src/database/database.cpp:491-519 | the loop sends the batches of the text in order until one is refused |
| `DbInsert.DBInsert.Execute` | src/database/database.cpp:457-523 | everything pending is sent and cleared, or a first part is sent and nothing is forgotten; every statement is the query, its values and the clause of the upsert columns, over the limit by at most one byte |
| `DbInsert.UpsertIsClause` | src/database/database.cpp:457-481 | nothing follows the values without columns; with them, the words of the clause and one assignment for each column, separated by commas |
| `DbInsert.StatementInserts` | src/database/database.cpp:491-519 | the statement of a batch is the query, a blank unless it ends with one, the bracketed rows separated by commas, and the clause |
| `DbInsert.DBInsert.UpsertQuery` | src/database/database.cpp:464-481 | the loop over the columns builds that clause |
| `DbInsert.SentAgain` | src/database/database.cpp:491-523 | a success after a failure part way sends everything again from the start, so the first statements arrive twice |
| `DbInsert.InsertAll` | src/io/player_storage_repository_db.cpp:45-58 | for any upsert columns: if all calls succeed and all rows are safe, the statements insert exactly the rows, each in brackets, in order, once each, and each ends with the clause of the columns |
| `DbInsert.SplitKeepsRows` | src/database/database.cpp:491-507 | batches of safe rows are runs of whole rows, all of them, in order |
| `DbInsert.BatchSizes` | src/database/database.cpp:491-507 | a batch is at most one byte over the cut position |
| `DbInsert.NeverCutsIffSafe` | src/database/database.cpp:491-507 | no cut position below the query limit can cut a row in two, whichever rows are still to be sent, if and only if no row contains the separator within its reach |
| `DbInsert.BoundaryIsCut` | src/database/database.cpp:431-443 | and between any two neighbouring rows it does occur |
| `DbInsert.UnsafeRowIsCut` | src/database/database.cpp:491-507 | for every separator inside a row the cut position that ends the first batch there |
| `DbInsert.CutsBetweenRows` | src/database/database.cpp:431-443 | in the text of rows safe up to a position, the separator occurs there only between rows |
| `ConditionCache.StepAgreesIff` | src/creatures/creature.hpp:850-873 | adding or erasing with its count keeps every counter right exactly below 65536 of one type |
| `ConditionCache.FullCounterIsLost` | src/creatures/creature.hpp:850-873 | the 65536th condition of a type brings its counter to zero, and the early exit then finds none of them |
| `ConditionCache.RunAgrees` | src/creatures/creature.cpp:1428-1661 | at every point of every run, re-entrant calls included, a counter is positive exactly when a search finds a condition of the type |
| `ConditionCache.KeyFoundFirst` | src/creatures/creature.cpp:1569-1581 | a search by type, id and sub id finds the first condition with all three, or there is none |
| `ConditionCache.KeepInTurn` | src/creatures/creature.cpp:1468-1639 | what a removing loop keeps stays in its place between the others |
| `ConditionCache.Creature.GetCondition` | src/creatures/creature.cpp:1556-1567 | the early exit gives the first condition of the type |
| `ConditionCache.Creature.GetConditionByKey` | src/creatures/creature.cpp:1569-1581 | the early exit gives the first condition with that type, id and sub id |
| `ConditionCache.Creature.HasCondition` | src/creatures/creature.cpp:1641-1661 | true exactly when an unsuppressed condition of the type is in effect |
| `ConditionCache.Creature.GetConditionsByType` | src/creatures/creature.cpp:1607-1619 | all conditions of the type, in order |
| `ConditionCache.Creature.RemoveConditionsOfType` | src/creatures/creature.cpp:1468-1489 | exactly the conditions of the type go, the counts right at every callback |
| `ConditionCache.Creature.RemoveConditionById` | src/creatures/creature.cpp:1491-1523 | the same with id; a paralysis may be postponed |
| `ConditionCache.Creature.RemoveCondition` | src/creatures/creature.cpp:1542-1554 | the first occurrence goes |
| `ConditionCache.Creature.ExecuteConditions` | src/creatures/creature.cpp:1621-1639 | exactly the conditions that are over go, in order |
| `ConditionCache.Creature.AddCondition` | src/creatures/creature.cpp:1428-1452 | merged, added or refused, and the rival of haste or paralysis taken off; the 65536th of a type loses the counter of that type and of no other |
| `ConditionCache.RivalIsGone` | src/creatures/creature.cpp:1272-1278 | a new haste takes every paralysis off and a new paralysis every haste, if one is in effect and not suppressed, and nothing else |
| `EventIndex.SetBit` | src/creatures/creature.cpp:1744-1744 | raising a type's bit changes that bit only |
| `EventIndex.ClearBit` | src/creatures/creature.cpp:1778-1780 | lowering a type's bit changes that bit only |
| `EventIndex.Creature.RegisterCreatureEvent` | src/creatures/creature.cpp:1730-1749 | a name that is known and loaded is registered once, any other is refused; each bit tells whether the list holds its type, before and after |
| `EventIndex.Creature.UnregisterCreatureEvent` | src/creatures/creature.cpp:1751-1782 | exactly the event of that name goes, and the bit falls with the last of its type |
| `EventIndex.Creature.GetCreatureEvents` | src/creatures/creature.cpp:1815-1829 | the early exit on the bit gives what plain search gives |
| `EventIndex.OfKindEmpty` | src/creatures/creature.cpp:1811-1829 | a search comes out empty exactly when the list holds no event of the type |
| `EventIndex.OfKindInTurn` | src/creatures/creature.cpp:1815-1829 | a search finds all events of the type in the order of the list |
| `EventIndex.WithoutInTurn` | src/creatures/creature.cpp:1764-1776 | a removal leaves the other events in their order |
| `DeathRewards.GetDamageRatio` | src/creatures/creature.cpp:1224-1245 | both sums as the loop computes them, wrapping at 32 bits |
| `DeathRewards.GatherDamage` | src/creatures/creature.cpp:614-671 | the loop over the damage map: experience, killers, windowed damage, most damage, leaders |
| `DeathRewards.ExperienceIsGains` | src/creatures/creature.cpp:641-675 | merging into party leaders moves experience and makes none |
| `DeathRewards.ExperienceBound` | src/creatures/creature.cpp:625-675 | the experience handed out is at most the loss while the 32-bit sum covers the credited damage |
| `DeathRewards.ExperienceBoundIff` | src/creatures/creature.cpp:1224-1249 | for all attendances, parties and losses: exactly then |
| `DeathRewards.HardHitsExceed` | src/creatures/creature.cpp:1224-1249 | three attackers with the most damage an entry can hold are together handed more than three times what was lost |
| `DeathRewards.SmallDamageIsSafe` | src/creatures/creature.cpp:1224-1249 | in particular whenever all damage fits 32 bits |
| `DeathRewards.ExperienceGoesTo` | src/creatures/creature.cpp:641-675 | each creature receives exactly the worth of the entries that earn for it: the leader for the members and summons of a sharing party, everybody else for himself |
| `DeathRewards.KillersAre` | src/creatures/creature.cpp:643-659 | the killers are the players who stand for a credited attacker, and the leaders and members of their sharing parties |
| `DeathRewards.MostDamageIs` | src/creatures/creature.cpp:636-657 | the creature of the most damage is the one named last: by an entry that takes the lead in the fight, or as leader of a sharing party |
| `DeathRewards.DanoIsWindowed` | src/creatures/creature.cpp:644-651 | the table holds each player's own and summoned damage in the window |
| `DeathRewards.Responsible` | src/creatures/creature.cpp:694-709 | the first five of the sorted table |
| `DeathRewards.RuleOfFive` | src/creatures/creature.cpp:644-709 | as many as there are, at most five, all of them killers, and nobody outside dealt more in the window than anybody inside |
| `DeathRewards.TellKillers` | src/creatures/creature.cpp:711-729 | which killers are told, each once: by the old rule the one of the most damage or his master, by the new one the five without the last hitter and his master |
| `DeathRewards.OnPlayerDeath` | src/creatures/creature.cpp:589-729 | the whole of a player's death: bounded experience, each share with its receiver, at most five told once, never the last hitter or its master |
| `CharmLedger.StepKeeps` | src/io/iobestiary.cpp:459-574 | purchase, assignment, removal, reset and kill keep points and echoes plus spending equal to their maxima in 32-bit arithmetic, the unlocked bits true and no creature doubly charmed |
| `CharmLedger.RunKeeps` | src/io/iobestiary.cpp:283-574 | so does every run of them |
| `CharmOutcomes.RequestGranted` | src/io/iobestiary.cpp:383-574 | every request does exactly what it is meant to where its conditions hold, and nothing otherwise: price and gift of a tier, slots of a standing, one charm of a category on a creature, removal, reset, stages and award of a kill |
| `CharmBooks.EchoesAlwaysExact` | src/io/iobestiary.cpp:367-574 | in every run of a new player echoes held plus echoes spent are exactly the maximum, as plain numbers |
| `CharmBooks.StepBooksIff` | src/io/iobestiary.cpp:351-574 | exact books of points stay exact under every request but a kill, and under a kill exactly when the maximum stays within 32 bits or the points leave them too |
| `CharmBooks.RunBooksIff` | src/io/iobestiary.cpp:351-574 | over a run the books are exact throughout exactly when no kill wraps the maximum alone |
| `CharmBooks.PointsAlwaysExact` | src/io/iobestiary.cpp:351-574 | with an ordered bestiary, in every run of a new player points held plus points spent are exactly the maximum, which is exactly the worth of the creatures completed; nothing ever wraps |
| `CharmBooks.LosesCount` | src/io/iobestiary.cpp:351-410 | a run of a new player after which more points are held than the maximum says were ever brought in |
| `CharmLedger.OneCharmEach` | src/io/iobestiary.cpp:412-432 | on a known creature at most one used charm of each category |
| `CharmLedger.AssignFits` | src/io/iobestiary.cpp:501-512 | an assignment never exceeds the player's slots |
| `CharmLedger.PaysOnceIff` | src/io/iobestiary.cpp:383-410 | for every batching of kills a creature pays once exactly when it takes kills to complete it and its stages are ordered |
| `CharmLedger.PaysForNothing` | src/io/iobestiary.cpp:383-410 | a creature complete without kills pays for every empty batch |
| `CharmLedger.KillsPay` | src/io/iobestiary.cpp:351-410 | each award raises points and maximum by the creature's worth |
| `CharmLedger.Player.AddCharmPoints` | src/io/iobestiary.cpp:351-365 | adding raises the maximum too, taking does not |
| `CharmLedger.Player.AddMinorCharmEchoes` | src/io/iobestiary.cpp:367-381 | the same for echoes |
| `CharmLedger.Player.GetCharmFromTarget` | src/io/iobestiary.cpp:412-432 | the loop finds a category exactly when some used charm of it is on the creature |
| `CharmLedger.Player.BuyCharm` | src/io/iobestiary.cpp:465-500 | action 0 in place |
| `CharmLedger.Player.AssignCharm` | src/io/iobestiary.cpp:501-533 | action 1 in place |
| `CharmLedger.Player.RemoveCharm` | src/io/iobestiary.cpp:534-546 | action 2 in place |
| `CharmLedger.Player.ResetCharms` | src/io/iobestiary.cpp:547-572 | action 3 in place |
| `CharmLedger.Player.AddBestiaryKill` | src/io/iobestiary.cpp:383-410 | kills, stages and award in place |
| `RuneBits.BitsOf` | src/io/iobestiary.cpp:318-332 | exactly the set bits, highest first |
| `RuneBits.RaisedBit` | src/io/iobestiary.cpp:442-452 | switching a charm's bit on changes that bit only |
| `RuneBits.LoweredBit` | src/io/iobestiary.cpp:442-457 | switching it off changes that bit only |
| `PreySlots.GridIsNine` | src/io/ioprey.cpp:57-131 | a completed grid is nine distinct eligible creatures outside the blacklist |
| `PreySlots.FreshDrawsBounded` | src/io/ioprey.cpp:100-131 | at most as many new draws as the bestiary has races |
| `PreyGridEnd.NeverStuckIff` | src/io/ioprey.cpp:57-131 | for every bestiary, blacklist and level: whatever is drawn the grid can still be filled, exactly when each star class has as many eligible creatures outside the blacklist as its stage starts with |
| `PreyGridEnd.CanFillIff` | src/io/ioprey.cpp:57-131 | from any state the drawing reaches it can still end exactly when listed and left creatures make nine |
| `PreyGridEnd.OneStarDeadEnd` | src/io/ioprey.cpp:57-131 | with nine eligible creatures of one star four draws lead where no draws end the loop |
| `PreySlots.TooFewNeverFills` | src/io/ioprey.cpp:100-131 | otherwise no draws whatever end it |
| `PreySlots.NewSlotPercentIff` | src/io/ioprey.cpp:21-55 | the percentage of a new slot belongs to its type exactly for experience and loot |
| `PreySlots.StepKeeps` | src/io/ioprey.cpp:255-403 | every action and tick: an occupied slot is active with its creature off its list, stars stay in 1 to 10 and fall only where a hunt ends unpaid, lists stay disjoint, no creature is hunted on two slots |
| `PreySlots.RunKeeps` | src/io/ioprey.cpp:255-403 | so does every run |
| `PreySlots.InitializeOk` | src/creatures/players/player.cpp:12459-12477 | the slots of a new player are consistent, so every run of them starts well |
| `PreySlots.StarsNeverFall` | src/io/ioprey.cpp:41-403 | over a run in which no hunt of a slot ends its stars never fall, whatever happens to it and the others |
| `PreyOutcomes.RequestAnswered` | src/io/ioprey.cpp:299-403 | an accepted selection hunts the creature at that place with full time and takes only it off the list, keeping a bonus; and so on for the other five requests; a refused one changes nothing |
| `PreyOutcomes.TickEnds` | src/io/ioprey.cpp:255-297 | time runs down, or the hunt ends: a new bonus, the same one, or an erased slot with a fresh grid |
| `PreyOutcomes.AllTicked` | src/io/ioprey.cpp:255-297 | so it is for all slots in their turn, each seeing the earlier ones as they have become |
| `PreyOutcomes.SlotOpens` | src/creatures/players/player.cpp:12459-12477 | a new slot is inactive, locked for want of a right, or open with a fresh grid |
| `PreyOutcomes.NineDraws` | src/io/ioprey.cpp:72-131 | a grid of only nine draws has the mixture of stars of its level |
| `PreySlotCode.PreySlot.ReloadMonsterGrid` | src/io/ioprey.cpp:57-131 | the drawing loop in place, with its wrapping try counter |
| `PreySlotCode.PreySlot.ReloadBonusValue` | src/io/ioprey.cpp:41-54 | stars and percentage in place |
| `PreySlotCode.PreySlot.EraseBonus` | src/io/ioprey.hpp:110-120 | what an erasure keeps |
| `PreySlotCode.PreySlot.RemoveMonsterType` | src/io/ioprey.hpp:122-124 | exactly that creature leaves the list |
| `PreySlotCode.GetPreyBlackList` | src/creatures/players/player.cpp:10292-10306 | the occupied creatures and all lists |
| `PreySlotCode.GetPreyWithMonster` | src/creatures/players/player.cpp:10308-10321 | whether a slot has the creature |
| `PreySlotCode.InitializePrey` | src/creatures/players/player.cpp:12459-12477 | three fresh slots, locked or with a grid apart from those before |
| `PreySlotCode.ParsePreyAction` | src/io/ioprey.cpp:299-403 | one request in place, with its outcome, touching that slot only |
| `PreySlotCode.CheckPlayerPreys` | src/io/ioprey.cpp:255-297 | the slots one after another in place, each with its outcome and seeing what the earlier ones became; they stay consistent and keep their stars |
| `BossBonus.PricedIff` | src/io/io_bosstiary.cpp:227-239 | a price fits 32 bits exactly up to bonus 41544 |
| `BossBonus.InverseIff` | src/io/io_bosstiary.cpp:217-239 | from one hundred up, bonus of price of b is b exactly up to 32863 |
| `BossBonus.InverseLow` | src/io/io_bosstiary.cpp:217-239 | below: exact on 25 to 50, one short on 51 to 99 |
| `BossBonus.LowBonus` | src/io/io_bosstiary.cpp:217-225 | below 1250 a step of the bonus takes ten points, from 251 on twenty |
| `BossBonus.LeastReaching` | src/io/io_bosstiary.cpp:217-239 | no total from 1250 up below the price reaches a bonus |
| `BossBonus.BracketIff` | src/io/io_bosstiary.cpp:217-239 | a total lies between the prices of its bonus and the next exactly when the radicand does not wrap |
| `BossBonus.PriceSquare` | src/io/io_bosstiary.cpp:227-239 | the price is an integer, a multiple of five above 1250, and completes a square |
| `BossBonus.GetBossCurrentLevel` | src/io/io_bosstiary.cpp:275-301 | the loop counts the stages reached |
| `BossBonus.BossTracker.AddBosstiaryKill` | src/io/io_bosstiary.cpp:173-195 | kills and points after a batch, in place |
| `BossBonus.LevelsPaidIff` | src/io/io_bosstiary.cpp:173-195 | for every batching all reached levels are paid once exactly when none is jumped over |
| `BossBonus.JumpedLevelIsLost` | src/io/io_bosstiary.cpp:173-195 | a hundred kills at once pay 15 of the 20 points of two levels |

## Left out

- OtbLoader.Loader.ParseTree: is stated for a freshly opened loader; a second call on the same loader would append to the root's children. The check for a START at the very end of the file is made before the child is attached, which no caller can see, because the parse has failed.
- PropStreams.PropStream.Read: the stream holds its bytes by value; that `propBuffer` is reused by the next `getProps` is not captured.
- FileStreams.FileStream.Get: files are assumed at most 4 GiB less 8 KiB long, so that a position plus the longest string stays in 32 bits; `back` does wrap.
- FileStreams.FileStream.ReadString: the same; in the last 8191 bytes before 4 GiB the sum of position and length would wrap.
- MapNodes.ReadPrintedName: the printed form is the escaped one that `OTB` writers produce; the map file is otherwise not modelled.
- AsyncBuckets.StepKeepsInv: a flag test-and-set on one creature is one atomic step, weak pointers are ids, and nested calls may interleave freely.
- CreatureTasks.Creature.ExecuteAsyncTasks: calls on one creature do not overlap; a task is a script of what it does to its own creature.
- ItemStore.LoadItemFrom: items inside a container are held by value once they are complete, so later aliasing of a child is not captured; the branch for stationary items on a map tile is not part of this model.
- ItemStore.Item.ReadAttr: the global registry of unique ids, and the overrides of depots, doors, beds, teleports and reward chests, are not part of this model; a unique id is read and dropped.
- ItemTrees.LoadSaved: the branch for stationary items on a map tile, `saveTile`, sleeping beds and `startDecaying` are not modelled; they depend on map, house and decay classes.
- Overflow of `atoi` on a hireling lamp's text, and of a running decay measured against the clock, is undefined in the original and not modelled.
- DbInsert.DBInsert.Execute: the server's answers are an input; a query is appended to a log.
- ConditionCache.Creature.AddCondition: for a type that has once had 65536 conditions listed nothing is stated but that the other types are not affected. Callbacks are observers there; `ConditionCache.RunAgrees` covers those that change the list.
- EventIndex.Creature.RegisterCreatureEvent: an event keeps its type; the map of events by name is an input.
- DeathRewards.GetGainedExperience: the quotient is exact; rounding of doubles is not modelled, nor is 32-bit overflow of one player's damage.
- DeathRewards.RuleOfFive: the order of equal entries after `std::sort` is any.
- CharmLedger.Player.RemoveCharm: whether the fee is paid, premium state and promotion are inputs; messages and metrics are left out. Kill counts do not wrap.
- CharmLedger.StepKeeps: points granted or taken by scripts outside these requests are not steps.
- RuneBits.BitsOf: the masks are non-negative, as charm bits make them; on a negative mask the original loop would not end.
- PreySlots.StepKeeps: random draws, prices, cards and the clock are inputs; a redrawn bonus type is its last draw. Task hunting slots are a smaller copy of the same machine and are left out.
- PreySlotCode.PreySlot.ReloadMonsterGrid: when the given draws end early the original would go on drawing; nothing is stated for that case but that the grid is not done.
- BossBonus.InverseIff: square roots are whole parts of exact roots; prices that do not fit 32 bits are undefined in the original.
- BossBonus.BossTracker.AddBosstiaryKill: storage of kill counts as signed 32-bit numbers and the podium reward are left out.
- MySQL, Lua, protobuf, network, logging, metrics, file mapping and text messages: foreign calls or output only.
- Dispatcher internals, `BasicItem::unserializeItemNode`, `parseTileArea`, the wheel, market, houses, accounts, walk events, the summon list and configuration: outside the chosen parts, or single branches that would add easy members.

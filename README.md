# wind, modelled in Dafny

A model of the core of *wind*. wind is a collaborative JSON editor built on operational transformation (OT). Clients edit a shared JSON document by sending ops. The server orders the ops, transforms concurrent ones past each other and stores them in a per-object mutation log. Clients receive the ops back in order and apply them to their own copy.

The model covers five parts.

- **The OT algebra.**
  - `Paths`: the string paths `a.b[3]`.
  - `MapOps`, `ReplaceOps`, `NumberOps` and `ListOps`: the elementary ops and their compose, invert and transform.
  - `ObjectOps` and `ArrayOps`: the transforms of an object or array op against an op on a descendant.
  - `JsonOps`: an op at a path, with its wire form.
  - `JsonModels`: compose and transform of op lists.
- **The JSON document.**
  - `Json`, `Documents` and `Contexts`: a document snapshot, and the `JString`/`JNumber`/`JArray`/`JObject`/`JNull` views that apply ops to it.
  - `JsonUtil`/`Serializers`: value conversion.
  - `Ids`: the random base-64 id generator and `ObjectId`.
- **The server.**
  - `Slobs`: the slob (shared live object) model interface.
  - `JsonModelAdapters`: the JSON model as a slob model.
  - `JsonLoaders`: object creation.
  - `MutationLogs`: the stored history, its appender and reconstruction.
  - `LocalMutationProcessors`: accepting client updates in a transaction.
- **The channels.**
  - `SlobMessageRouters`: listener slots and message fan-out.
  - `RestrictedChannels`: the one-message hand-off of the batching update processor.
  - `ReceiveOpChannels`: in-order delivery of unordered, duplicated revisions.
  - `ChannelRegistries`: counts of open documents per registry tree.
  - `JsonHandlerRegistries`: handler lists per path.
- **The realtime client objects.**
  - `CollaborativeStrings`, `CollaborativeLists` and `CollaborativeMaps`.
  - `IndexReferences`.
  - `RealtimeDocuments`: the parent-reference table and event handlers.
  - `JreJsonArrays`: the server-side JSON array.

Code that edits in place is modelled as a Dafny class: the op builders, the context, the slob, the appender, the channels, the registries and the collaborative objects. Each method is proved against a value function, and the algebra is proved about those functions. Java `assert`s count as enabled: a failing one is the error `AssertionFailed`. Each exception the source throws is an `Error` constructor, returned in a `Result` or `Outcome`.

`ListOp` with its compose, transform and collector, the JSON text library, the datastore, memcache and the channel service are not part of this model. They appear as parameters, and the laws proved about them hold for every such parameter that meets the stated requirements.

Where verification showed that the code as written does not do what it evidently intends, both versions are modelled. Each such case is listed under "## Findings".

## Model

| member | source | states |
|---|---|---|
| Paths.AtKey | model/src/main/java/com/goodow/wind/model/json/Path.java:29-32 | `at(key)` succeeds exactly for a key that passes `checkKey` (non-empty, no `.`, `[` or `]`) |
| Paths.GetParent | model/src/main/java/com/goodow/wind/model/json/Path.java:83-95 | no parent exactly for the root; an indexed path without `[` throws (index out of bounds); otherwise the parent is a strictly shorter prefix of the path |
| Paths.GetIndex | model/src/main/java/com/goodow/wind/model/json/Path.java:110-114 | an index is read only from an indexed path |
| Paths.GetKey | model/src/main/java/com/goodow/wind/model/json/Path.java:116-123 | a key is read only from a non-indexed path; it ends the path and holds no `.` |
| Paths.IsAncestorOf | model/src/main/java/com/goodow/wind/model/json/Path.java:125-137 | the relation is strict (an ancestor is shorter); the root is an ancestor of every other path; nothing is an ancestor of the root |
| Paths.NextIndex | model/src/main/java/com/goodow/wind/model/json/Path.java:143-156 | no step exactly when the path is empty or does not continue `parent` with `[` |
| Paths.NextKey | model/src/main/java/com/goodow/wind/model/json/Path.java:158-177 | no step exactly when the path is empty or does not continue `parent` with `.` (a root parent: starts with `[`) |
| Paths.NoBracketInNumber | model/src/main/java/com/goodow/wind/model/json/Path.java:41-43 | a printed index holds no `[`, `]` or `.`, so `at(int)` adds exactly one step |
| Paths.ParentOfAtIndex | model/src/main/java/com/goodow/wind/model/json/Path.java:41-43 | `getParent` undoes `at(int)` |
| Paths.ParentOfAtKey | model/src/main/java/com/goodow/wind/model/json/Path.java:56-59 | `getParent` undoes `at(key)` for every valid key |
| Paths.IndexOfAtIndex | model/src/main/java/com/goodow/wind/model/json/Path.java:110-114 | `getIndex` reads back the index `at(int)` appended |
| Paths.KeyOfAtKey | model/src/main/java/com/goodow/wind/model/json/Path.java:116-123 | `getKey` reads back the key `at(key)` appended |
| Paths.AncestorOfSteps | model/src/main/java/com/goodow/wind/model/json/Path.java:125-137 | a path is an ancestor of every one-step extension of it |
| Paths.NextIndexOfAt | model/src/main/java/com/goodow/wind/model/json/Path.java:143-156 | `nextIndex(parent)` of `parent.at(i).at(sub)` gives back `(i, sub)` |
| Paths.NextKeyOfAt | model/src/main/java/com/goodow/wind/model/json/Path.java:158-177 | `nextKey(parent)` of `parent.at(key).at(sub)` gives back `(key, sub)` for every valid key |
| Decimal.Wrap | model/src/main/java/com/goodow/wind/model/json/ArrayOp.java:172 | the `int` sum `pair.first + cursor[1]` Java computes for a shifted index: the exact sum when it fits 32 bits, and always congruent to it modulo 2^32 |
| Decimal.IntToString | model/src/main/java/com/goodow/wind/model/json/Path.java:41-43 | `"" + index` prints a non-empty text of digits and a minus sign |
| Decimal.ParseInt | model/src/main/java/com/goodow/wind/model/json/Path.java:110-114 | `Integer.parseInt` accepts only non-empty text |
| Decimal.ParsePrintedInt | model/src/main/java/com/goodow/wind/model/json/Path.java:110-114 | `Integer.parseInt` reads back every int that `at(int)` printed |
| ListOps.Invert | model/src/main/java/com/goodow/wind/model/op/list/algorithm/ListOpInverter.java:19-44 | the inverse has one component per component of the op |
| ListOps.RetainStep | model/src/main/java/com/goodow/wind/model/json/JString.java:88-91 | a retain moves the cursor by its count and walks on over the same list |
| ListOps.InsertStep | model/src/main/java/com/goodow/wind/model/json/JString.java:81-85 | an insert past the end fails its assertion (as does an empty insert into an array); otherwise its items are spliced in at the cursor and the walk goes on after them |
| ListOps.DeleteStep | model/src/main/java/com/goodow/wind/model/json/JString.java:74-78 | a delete running past the end fails (index out of bounds for text, an assertion for arrays); items that differ from the op's fail the assertion; otherwise they are cut out and the walk goes on at the same cursor |
| ListOps.ApplyLength | model/src/main/java/com/goodow/wind/model/json/JString.java:68-93 | a successful walk changes the length by what it inserts minus what it deletes |
| ListOps.ApplyShift | model/src/main/java/com/goodow/wind/model/json/JArray.java:144-177 | a walk never looks left of its start: walking `a + b` from `|a| + c` succeeds exactly when walking `b` from `c` does, and keeps `a` in front |
| ListOps.InvertUndoes | model/src/main/java/com/goodow/wind/model/op/list/algorithm/ListOpInverter.java:19-44 | for every op that applies to a list, the inverse applied to the result gives the list back (for the realtime string, whose walk rejects empty deletes, when the op has no empty edits) |
| ListOps.ListOpInverter.constructor | model/src/main/java/com/goodow/wind/model/op/list/algorithm/ListOpInverter.java:19-22 | walking an op through a fresh inverter appends exactly its inverse to the output |
| ListOps.ListOpInverter.OnDelete | model/src/main/java/com/goodow/wind/model/op/list/algorithm/ListOpInverter.java:25-28 | a delete becomes an insert of the same items |
| ListOps.ListOpInverter.OnInsert | model/src/main/java/com/goodow/wind/model/op/list/algorithm/ListOpInverter.java:31-34 | an insert becomes a delete of the same items |
| ListOps.ListOpInverter.OnRetain | model/src/main/java/com/goodow/wind/model/op/list/algorithm/ListOpInverter.java:37-40 | a retain stays a retain of the same count |
| ListOps.ListOpInverter.Finish | model/src/main/java/com/goodow/wind/model/op/list/algorithm/ListOpInverter.java:42-44 | `finish` hands back the collected output |
| ListOps.InvertInvolution | model/src/main/java/com/goodow/wind/model/op/list/algorithm/ListOpInverter.java:19-44 | inverting twice gives the op back |
| ListOps.TrailingRetain | model/src/main/java/com/goodow/wind/model/json/JString.java:88-91 | an op made only of (at most one) retain leaves the list as it is |
| ListOps.SingleInsertApplies | model/src/main/java/com/goodow/wind/model/json/JString.java:54-60 | the op `insert(idx, text)` builds, applied to the string, puts the text at `idx` |
| ListOps.SingleInsertOutOfRange | model/src/main/java/com/goodow/wind/model/json/JString.java:54-60 | an insert past the end of the list fails its assertion |
| ListOps.SingleDeleteApplies | model/src/main/java/com/goodow/wind/model/json/JString.java:36-43 | the op `delete(idx, length)` builds removes exactly those items when they are there |
| ListOps.EditsReplay | model/src/main/java/com/goodow/wind/model/json/JString.java:95-111 | the insert/delete events a successful walk fires, replayed in order on the starting list, give the walk's result |
| ListOps.WalkStep | model/src/main/java/com/goodow/wind/model/json/JString.java:68-93 | the walk from component `i` is that component's step then the walk of the rest, and it reports that component's event before the rest's |
| ListOps.ReportedStep | model/src/main/java/com/goodow/wind/model/json/JString.java:95-111 | each component walked adds its own event to those already fired |
| ListOps.ReportedAll | model/src/main/java/com/goodow/wind/model/json/JString.java:95-111 | when every component has been walked, the fired events are exactly the walk's events |
| ListOps.SingleEditEdits | model/src/main/java/com/goodow/wind/model/json/JString.java:118-136 | the op of a single insert or delete fires exactly one event, at its index with its items |
| Ops.Invert | model/src/main/java/com/goodow/wind/model/op/basic/NoOp.java:45-47 | `invert` gives the no-op exactly for the no-op |
| Ops.InvertJsonOp | model/src/main/java/com/goodow/wind/model/json/JsonOp.java:129-131 | `JsonOp.invert` keeps the op's path |
| Ops.InvertInvolution | model/src/main/java/com/goodow/wind/model/json/JsonOp.java:129-131 | inverting any well-formed op twice gives it back |
| Ops.InvertKeepsNoOp | model/src/main/java/com/goodow/wind/model/op/list/algorithm/ListOpInverter.java:19-44 | a list op is a no-op exactly when its inverse is |
| MapOps.UpdatedIsChain | model/src/main/java/com/goodow/wind/model/op/map/MapOp.java:159-179 | `update` touches only its key and does to it what chaining the two changes gives: equal values change nothing, a new key is added, a mismatched old value is a `ComposeException`, a change back to the first value drops the key |
| MapOps.UpdatedWellFormed | model/src/main/java/com/goodow/wind/model/op/map/MapOp.java:159-179 | a successful `update` keeps every component a real change |
| MapOps.Normalized | model/src/main/java/com/goodow/wind/model/op/map/MapOp.java:186-194 | the components a clone built by `update`s holds: exactly the entries whose old and new values differ, unchanged |
| MapOps.NormalizedWellFormed | model/src/main/java/com/goodow/wind/model/op/map/MapOp.java:186-194 | cloning a well-formed op gives the same components |
| MapOps.ComposeStep | model/src/main/java/com/goodow/wind/model/op/map/MapOp.java:76-79 | each key of the second op folded in by `update` either extends the composition by that key or throws `ComposeException` exactly when the chain of that key's changes breaks |
| MapOps.EntryComposed | model/src/main/java/com/goodow/wind/model/op/map/MapOp.java:71-81 | a composition holds, for every key, the chained change of that key |
| MapOps.ComposeOntoEmpty | model/src/main/java/com/goodow/wind/model/op/map/MapOp.java:186-194 | folding an op into an empty one keeps exactly what `update` keeps |
| MapOps.ComposedWellFormed | model/src/main/java/com/goodow/wind/model/op/map/MapOp.java:71-81 | a composition of well-formed ops is well formed |
| MapOps.ComposeWithEmpty | model/src/main/java/com/goodow/wind/model/op/map/MapOp.java:71-81 | composing with the empty op on either side gives the op back |
| MapOps.InvertedIsSwapFolded | model/src/main/java/com/goodow/wind/model/op/map/MapOp.java:97-105 | `invert`'s `update`s of swapped pairs into a new op never throw and give the swapped components |
| MapOps.InvertInvolution | model/src/main/java/com/goodow/wind/model/op/map/MapOp.java:97-105 | the inverse is well formed and inverting twice gives the op back |
| MapOps.ComposeWithInverse | model/src/main/java/com/goodow/wind/model/op/map/MapOp.java:71-105 | an op composed with its own inverse is the empty op |
| MapOps.TransformStep | model/src/main/java/com/goodow/wind/model/op/map/MapOp.java:134-153 | each client key the transform loop visits adds to the transformed client op exactly the change the loop computes for it |
| MapOps.ConsistentApplies | model/src/main/java/com/goodow/wind/model/op/map/MapOp.java:62-68 | an op whose old values the object holds applies |
| MapOps.ComposedAccepted | model/src/main/java/com/goodow/wind/model/op/map/MapOp.java:71-81 | after `a`, `b` is accepted exactly when their composition is accepted from the start |
| MapOps.ComposedOutcome | model/src/main/java/com/goodow/wind/model/op/map/MapOp.java:71-81 | applying `a` then `b` gives the object their composition gives |
| MapOps.ComposeThenApply | model/src/main/java/com/goodow/wind/model/op/map/MapOp.java:71-81 | applying the composition is applying the two ops in turn |
| MapOps.InvertUndoes | model/src/main/java/com/goodow/wind/model/op/map/MapOp.java:97-105 | applying an op and then its inverse gives back the object |
| MapOps.ThenOk | model/src/main/java/com/goodow/wind/model/op/map/MapOp.java:62-68 | two ops applied in turn succeed exactly when each is accepted where it is applied |
| MapOps.ClientAfterServer | model/src/main/java/com/goodow/wind/model/op/map/MapOp.java:128-156 | after the server op, the transformed client op is accepted exactly when the client op was |
| MapOps.ServerAfterClient | model/src/main/java/com/goodow/wind/model/op/map/MapOp.java:209-219 | after the client op, the server op without the client's keys is accepted exactly when the server op was |
| MapOps.SameOutcome | model/src/main/java/com/goodow/wind/model/op/map/MapOp.java:128-156 | both orders leave every key with the same value, so the client wins on shared keys |
| MapOps.TransformConverges | model/src/main/java/com/goodow/wind/model/op/map/MapOp.java:128-156 | convergence: server then client′ succeeds exactly when client then server′ does, and both end in the same object |
| MapOps.ReadWritten | model/src/main/java/com/goodow/wind/model/op/map/MapOp.java:221-233 | the constructor reads back the key and change of every component `toJson(key, old, new)` writes (the three forms: pair, `{"i":…}`, `{"d":…}`) |
| MapOps.ParseOneMore | model/src/main/java/com/goodow/wind/model/op/map/MapOp.java:43-58 | a component for a key not parsed yet adds exactly that key |
| MapOps.ParseToWire | model/src/main/java/com/goodow/wind/model/op/map/MapOp.java:113-125 | the parsing constructor reads back the components of every well-formed op from what `toString` writes, in any key order |
| MapOps.MapOp.constructor | model/src/main/java/com/goodow/wind/model/op/map/MapOp.java:36-38 | a new op holds no components |
| MapOps.MapOp.Update | model/src/main/java/com/goodow/wind/model/op/map/MapOp.java:159-179 | `update` succeeds exactly when the key's change chains on, then holds the updated components; a `ComposeException` leaves the op as it was |
| MapOps.MapOp.UpdateAll | model/src/main/java/com/goodow/wind/model/op/map/MapOp.java:76-79 | folding every component of another op in, in any order, succeeds exactly when the two compose, and then holds their composition |
| MapOps.MapOp.Clone | model/src/main/java/com/goodow/wind/model/op/map/MapOp.java:186-194 | `clone` is a fresh op with the same (normalised) components |
| MapOps.MapOp.ComposeWith | model/src/main/java/com/goodow/wind/model/op/map/MapOp.java:71-81 | `composeWith` returns a fresh op holding the composition, or a `ComposeException` exactly when they do not compose; this op is unchanged |
| MapOps.MapOp.Invert | model/src/main/java/com/goodow/wind/model/op/map/MapOp.java:97-105 | `invert` returns a fresh op with every change reversed |
| MapOps.MapOp.Exclude | model/src/main/java/com/goodow/wind/model/op/map/MapOp.java:209-219 | `exclude` returns a fresh op with exactly the components whose key the client op does not touch |
| MapOps.MapOp.TransformWith | model/src/main/java/com/goodow/wind/model/op/map/MapOp.java:128-156 | `transformWith` returns fresh (server′, client′) equal to the transform, or a `TransformException` exactly when a shared key's old values differ |
| MapOps.MapOp.ToJson | model/src/main/java/com/goodow/wind/model/op/map/MapOp.java:113-125 | `toString` writes one component per key, in the order it lists the keys |
| MapOps.ParseOp | model/src/main/java/com/goodow/wind/model/op/map/MapOp.java:40-59 | the parsing constructor succeeds exactly when the wire form parses, and then holds the parsed components |
| MapOps.ParseNext | model/src/main/java/com/goodow/wind/model/op/map/MapOp.java:43-58 | each further component is read and folded in by `update`; a bad component is the error |
| MapOps.ReadTagBeforeKey | model/src/main/java/com/goodow/wind/model/op/map/MapOp.java:49-55 | in a two-element component a tag other than insert or delete fails the assertion whatever the key is; a key that is not a string fails only under a valid tag |
| MapOps.PrefixFailure | model/src/main/java/com/goodow/wind/model/op/map/MapOp.java:43-58 | once a prefix of the components fails to parse, the whole op fails |
| ReplaceOps.Fresh | model/src/main/java/com/goodow/wind/model/op/basic/ReplaceOp.java:109-129 | `replace` on a new op never throws and gives a well-formed op |
| ReplaceOps.ReplacedWellFormed | model/src/main/java/com/goodow/wind/model/op/basic/ReplaceOp.java:109-129 | a successful `replace` keeps the op well formed (a no-op holds two nulls, any other op two different values) |
| ReplaceOps.ComposeWithInverse | model/src/main/java/com/goodow/wind/model/op/basic/ReplaceOp.java:48-52 | an op composed with its inverse is the no-op |
| ReplaceOps.InvertInvolution | model/src/main/java/com/goodow/wind/model/op/basic/ReplaceOp.java:99-101 | inverting a well-formed op twice gives it back |
| ReplaceOps.ComposeThenApply | model/src/main/java/com/goodow/wind/model/op/basic/ReplaceOp.java:48-52 | applying the composition is applying the two ops in turn |
| ReplaceOps.InvertUndoes | model/src/main/java/com/goodow/wind/model/op/basic/ReplaceOp.java:99-101 | applying an op and then its inverse gives back the slot's value |
| ReplaceOps.TransformConverges | model/src/main/java/com/goodow/wind/model/op/basic/ReplaceOp.java:137-151 | both application orders end alike (or both fail), and when both ops change the slot the client's new value wins |
| ReplaceOps.ParseWrite | model/src/main/java/com/goodow/wind/model/op/basic/ReplaceOp.java:34-38 | the parsing constructor reads back what `toString` writes: every well-formed op of primitive values for `PRIMITIVE`, and the op with nulls turned into JSON nulls for `JSON` |
| ReplaceOps.ReplaceOp.constructor | model/src/main/java/com/goodow/wind/model/op/basic/ReplaceOp.java:31-32 | a new op is the no-op |
| ReplaceOps.ReplaceOp.Replace | model/src/main/java/com/goodow/wind/model/op/basic/ReplaceOp.java:109-129 | `replace` succeeds exactly when the values chain on and then holds the chained op; a `ComposeException` leaves the op as it was |
| ReplaceOps.ReplaceOp.ComposeWith | model/src/main/java/com/goodow/wind/model/op/basic/ReplaceOp.java:48-52 | `composeWith` returns a fresh op holding the composition, or a `ComposeException` exactly when the values do not chain |
| ReplaceOps.ReplaceOp.Invert | model/src/main/java/com/goodow/wind/model/op/basic/ReplaceOp.java:99-101 | `invert` returns a fresh op with the values exchanged |
| ReplaceOps.ReplaceOp.TransformWith | model/src/main/java/com/goodow/wind/model/op/basic/ReplaceOp.java:137-151 | `transformWith` returns fresh (server′, client′), or a `TransformException` exactly when both change the slot from different old values |
| ReplaceOps.ReplaceOp.ToJson | model/src/main/java/com/goodow/wind/model/op/basic/ReplaceOp.java:132-134 | `toString` writes the pair of old and new value |
| ReplaceOps.ParseOp | model/src/main/java/com/goodow/wind/model/op/basic/ReplaceOp.java:34-38 | the parsing constructor succeeds exactly when the wire form parses, and then holds the parsed op |
| NumberOps.TransformNegates | model/src/main/java/com/goodow/wind/model/op/number/NumberOp.java:71-75 | the two transformed deltas are each other's negation |
| NumberOps.TransformOrders | model/src/main/java/com/goodow/wind/model/op/number/NumberOp.java:71-75 | server then client′ ends at `v + c` while client then server′ ends at `v + s`: the transform does not converge |
| NumberOps.TransformDiverges | model/src/main/java/com/goodow/wind/model/op/number/NumberOp.java:71-75 | deltas 5 and 2 on 0 end at 2 in one order and at 5 in the other |
| NumberOps.ComposeThenApply | model/src/main/java/com/goodow/wind/model/op/number/NumberOp.java:37-58 | applying the sum of two deltas is applying them in turn, and the negated delta undoes a delta |
| NumberOps.NumberOp.constructor | model/src/main/java/com/goodow/wind/model/op/number/NumberOp.java:21 | a new op holds the delta 0 |
| NumberOps.NumberOp.Add | model/src/main/java/com/goodow/wind/model/op/number/NumberOp.java:24-27 | `add` accumulates into the delta |
| NumberOps.NumberOp.ComposeWith | model/src/main/java/com/goodow/wind/model/op/number/NumberOp.java:37-40 | `composeWith` returns a fresh op holding the sum of the deltas |
| NumberOps.NumberOp.Invert | model/src/main/java/com/goodow/wind/model/op/number/NumberOp.java:56-58 | `invert` returns a fresh op holding the negated delta |
| NumberOps.NumberOp.TransformWith | model/src/main/java/com/goodow/wind/model/op/number/NumberOp.java:71-75 | `transformWith` returns fresh ops holding `s - c` and `c - s` |
| NumberOps.NumberOp.ToJson | model/src/main/java/com/goodow/wind/model/op/number/NumberOp.java:66-68 | `toString` prints the delta as a number |
| NumberOps.ParseOp | model/src/main/java/com/goodow/wind/model/json/JsonOp.java:81 | the op read from a payload succeeds exactly when `asNumber` gives a number (a number, or an array of none or one element) and holds that number as its delta |
| JsonUtil.FromJson | model/src/main/java/com/goodow/wind/model/util/JsonUtil.java:19-35 | arrays and objects are unsupported; a JSON null becomes Java null and any other primitive stays as it is |
| JsonUtil.DoubleText | model/src/main/java/com/goodow/wind/model/util/JsonUtil.java:41 | `"" + number` prints a non-empty text |
| JsonUtil.ToJson | model/src/main/java/com/goodow/wind/model/util/JsonUtil.java:37-42 | a String is wrapped in quotes without escaping; Java null prints `null` |
| JsonUtil.FromJsonToJsonValue | model/src/main/java/com/goodow/wind/model/util/JsonUtil.java:19-42 | every primitive Java value survives being written and read back |
| JsonUtil.ToJsonQuotesOnlyStrings | model/src/main/java/com/goodow/wind/model/util/JsonUtil.java:37-42 | only a String prints with a leading quote, so strings never print like other values |
| Serializers.FromJson | model/src/main/java/com/goodow/wind/model/util/Serializer.java:27-43 | `JSON` keeps the value; `PRIMITIVE` converts as `JsonUtil.fromJson` |
| Serializers.AreEqualIsEquality | model/src/main/java/com/goodow/wind/model/util/Serializer.java:22-65 | both strategies compare as null-safe equality of values |
| Serializers.FromJsonOfWritten | model/src/main/java/com/goodow/wind/model/util/Serializer.java:27-75 | writing then reading gives back every primitive value under `PRIMITIVE`, and every value under `JSON` with Java null turned into a JSON null |
| Documents.LookupNavigates | model/src/main/java/com/goodow/wind/model/json/Context.java:95-130 | `get` follows the steps its path names: on a well-formed path it finds what navigation by those steps finds, and it finds a value only on a well-formed path |
| Documents.NavigateOverwrite | model/src/main/java/com/goodow/wind/model/json/Context.java:160-173 | after a value is overwritten in place, the same steps reach the new value |
| Documents.OverwriteTwice | model/src/main/java/com/goodow/wind/model/json/Context.java:160-173 | a second overwrite at the same steps replaces the first |
| Documents.OverwriteSame | model/src/main/java/com/goodow/wind/model/json/Context.java:160-173 | overwriting a value with itself changes nothing |
| Documents.ArraySet | realtime/src/main/java/elemental/json/impl/JreJsonArray.java:158-167 | `JsonArray.set` succeeds exactly for `0 <= i <= length`; at the length it appends, inside it replaces that one element and keeps the others |
| Documents.WriteChildTwice | model/src/main/java/com/goodow/wind/model/json/Context.java:168-172 | writing the same child twice keeps only the second value |
| Documents.WrittenTwice | model/src/main/java/com/goodow/wind/model/json/Context.java:160-173 | a second `setValue` at the same path replaces the first |
| Documents.WrittenAfter | model/src/main/java/com/goodow/wind/model/json/Context.java:160-173 | a `setValue` after any earlier one at the same path acts as if only it had been made |
| Documents.WrittenOkIndependent | model/src/main/java/com/goodow/wind/model/json/Context.java:160-173 | whether `setValue` succeeds does not depend on the value written |
| Documents.ObjectApplyStep | model/src/main/java/com/goodow/wind/model/json/JObject.java:131-145 | the keys of an object op are independent: before key `k` is applied the object still holds `k`'s original value, and applying it puts or removes that one key |
| Documents.AppliedNothing | model/src/main/java/com/goodow/wind/model/json/JObject.java:131-145 | before any key is applied the object is unchanged |
| Documents.StringInsertConsumed | model/src/main/java/com/goodow/wind/model/json/JString.java:54-60 | the op `insert(idx, str)` builds, consumed, writes back the string with `str` spliced in at `idx` |
| Documents.StringDeleteConsumed | model/src/main/java/com/goodow/wind/model/json/JString.java:36-43 | the op `delete(idx, length)` builds, consumed, writes back the string without those characters |
| Documents.NumberAddConsumed | model/src/main/java/com/goodow/wind/model/json/JNumber.java:35-64 | the op `add(num)` builds, consumed, writes back the sum, and changes nothing for a zero delta |
| Documents.ArrayInsertConsumed | model/src/main/java/com/goodow/wind/model/json/JArray.java:212-220 | the op `insert(idx, v)` builds, consumed, leaves the array with `v` at `idx` in place, and fails its assertion past the end |
| Documents.ArrayRemoveConsumed | model/src/main/java/com/goodow/wind/model/json/JArray.java:124-133 | the op `remove(idx, length)` builds, consumed, leaves the array without those elements in place |
| Documents.PutOp | model/src/main/java/com/goodow/wind/model/json/JObject.java:190-201 | the op `put(key, v)` builds: nothing when the key already holds `v`, otherwise one change from the current value (or absence) to `v` |
| Documents.RemoveOp | model/src/main/java/com/goodow/wind/model/json/JObject.java:120-127 | the op `remove(key)` builds for a present key: one change from its value to absence |
| Documents.ObjectPutConsumed | model/src/main/java/com/goodow/wind/model/json/JObject.java:194-201 | the op `put(key, v)` builds, consumed, leaves the object with `key` set to `v` in place |
| Documents.ObjectRemoveConsumed | model/src/main/java/com/goodow/wind/model/json/JObject.java:120-127 | the op `remove(key)` builds, consumed, leaves the object without `key` in place |
| Documents.NullReplaceConsumed | model/src/main/java/com/goodow/wind/model/json/JNull.java:34-80 | the replace op `asArray`/`asNumber`/`asObject`/`asString` builds from JSON null to a value, consumed, writes that value back |
| Documents.InPlaceFound | model/src/main/java/com/goodow/wind/model/json/Context.java:95-130 | after an in-place edit of a value that exists, `get` at its path finds the new value |
| Documents.InPlaceTwice | model/src/main/java/com/goodow/wind/model/json/JValue.java:83-87 | a second in-place edit at the same path replaces the first |
| Contexts.CopyRange | model/src/main/java/com/goodow/wind/model/json/JArray.java:126-129 | the copy loop of `remove` yields exactly the `length` elements from `idx` on, and stops (nothing) exactly when it would run past the end |
| Contexts.Context.constructor | model/src/main/java/com/goodow/wind/model/json/Context.java:54-57 | a new context holds the snapshot, with no sink, no registry and nothing submitted |
| Contexts.Context.SetOutputSink | model/src/main/java/com/goodow/wind/model/json/Context.java:150-153 | `setOutputSink` sets whether there is a sink and changes nothing else |
| Contexts.Context.SetRegistry | model/src/main/java/com/goodow/wind/model/json/Context.java:155-158 | `setRegistry` sets whether there is a registry and changes nothing else |
| Contexts.Context.SubmitOp | model/src/main/java/com/goodow/wind/model/json/Context.java:179-183 | `submitOp` hands the op to the sink when there is one, and otherwise does nothing |
| Contexts.Context.Get | model/src/main/java/com/goodow/wind/model/json/Context.java:95-130 | the loop over `.`-separated segments finds exactly what `Lookup` (proved equal to navigation by the parsed steps) finds |
| Contexts.Context.At | model/src/main/java/com/goodow/wind/model/json/Context.java:60-66 | `at` gives no wrapper where `get` finds nothing, and otherwise a wrapper of the found value's type |
| Contexts.Context.SetValue | model/src/main/java/com/goodow/wind/model/json/Context.java:160-173 | `setValue` succeeds exactly when `Written` does and then holds its snapshot (the root replaced, or the child set in the found parent); a failure leaves the snapshot |
| Contexts.Context.TextInsert | model/src/main/java/com/goodow/wind/model/json/JString.java:128-136 | the insert callback fails its assertion past the end, and otherwise writes back the text with the items spliced in at the cursor |
| Contexts.Context.TextDelete | model/src/main/java/com/goodow/wind/model/json/JString.java:74-78 | the delete callback throws index-out-of-bounds when the text is too short, fails its assertion when the text at the cursor differs, and otherwise writes back the text without it |
| Contexts.Context.TextComponent | model/src/main/java/com/goodow/wind/model/json/JString.java:70-92 | each component keeps the loop invariant: the walk so far is the model walk, and the string has been written back exactly when the walk has edited it |
| Contexts.Context.ConsumeText | model/src/main/java/com/goodow/wind/model/json/JString.java:68-93 | the text walk succeeds exactly when the model walk does and, unless the op only retains, its result can be written back; the snapshot then holds that result |
| Contexts.Context.ElementsInsert | model/src/main/java/com/goodow/wind/model/json/JArray.java:161-169 | the insert callback succeeds exactly for a non-empty list at a cursor within the array, and then the array holds the items at the cursor, in place |
| Contexts.Context.ElementsDelete | model/src/main/java/com/goodow/wind/model/json/JArray.java:150-158 | the delete callback succeeds exactly for a non-empty list equal to the elements at the cursor, and then removes them in place |
| Contexts.Context.ElementsComponent | model/src/main/java/com/goodow/wind/model/json/JArray.java:146-176 | each component of the element walk keeps the array in place at its steps and follows the model walk; a failing callback means the model walk fails |
| Contexts.Context.ConsumeElements | model/src/main/java/com/goodow/wind/model/json/JArray.java:144-177 | the element walk succeeds exactly when the model walk does, and the array at its steps then holds the result in place |
| Contexts.Context.ConsumeMembers | model/src/main/java/com/goodow/wind/model/json/JObject.java:131-145 | the update callbacks succeed exactly when the op applies to the object's members, which are then replaced in place; a failure is an assertion or (a missing key with an old value) a runtime exception |
| Contexts.Context.ConsumeNull | model/src/main/java/com/goodow/wind/model/json/JNull.java:70-80 | `JNull.doConsume` succeeds exactly when the replace op's old value is the null held, and then writes the new value |
| Contexts.Context.ConsumeNumber | model/src/main/java/com/goodow/wind/model/json/JNumber.java:55-64 | `JNumber.doConsume` succeeds exactly for a number op whose sum can be written, and changes nothing for a zero delta |
| Contexts.Context.ConsumeString | model/src/main/java/com/goodow/wind/model/json/JString.java:68-93 | `JString.doConsume` of any op: exactly the model's string consumption, including the failure for a non-list op |
| Contexts.Context.ConsumeArray | model/src/main/java/com/goodow/wind/model/json/JArray.java:144-177 | `JArray.doConsume` of any op: exactly the model's array consumption |
| Contexts.Context.ConsumeObject | model/src/main/java/com/goodow/wind/model/json/JObject.java:131-145 | `JObject.doConsume` of any op: exactly the model's object consumption |
| Contexts.Context.DoConsume | model/src/main/java/com/goodow/wind/model/json/JValue.java:89 | `doConsume` dispatches on the kind of the value held to the matching consumption |
| Contexts.Context.Consume | model/src/main/java/com/goodow/wind/model/json/JValue.java:58-62 | `consume` succeeds exactly when the op's path holds a value whose wrapper accepts the op, with the snapshot the model consumption gives |
| Contexts.Context.ConsumeAndSubmit | model/src/main/java/com/goodow/wind/model/json/JValue.java:83-87 | the op is consumed at the wrapper's path and, when that succeeds, handed to the sink |
| Contexts.Context.StringInsert | model/src/main/java/com/goodow/wind/model/json/JString.java:54-60 | `insert(idx, str)` past the end fails its assertion and changes nothing; otherwise the text with `str` at `idx` is written back and the single-insert op is submitted |
| Contexts.Context.StringDelete | model/src/main/java/com/goodow/wind/model/json/JString.java:36-43 | `delete(idx, length)` past the end fails its assertion and changes nothing; otherwise the text without those characters is written back and the single-delete op is submitted |
| Contexts.Context.NumberAdd | model/src/main/java/com/goodow/wind/model/json/JNumber.java:35-39 | `add(num)` writes back the sum (nothing for a zero delta) and submits the number op |
| Contexts.Context.ArrayInsert | model/src/main/java/com/goodow/wind/model/json/JArray.java:212-220 | inserting one value (Java null as JSON null) succeeds exactly within the array, leaves it with the value at `idx` in place, and submits the single-insert op |
| Contexts.Context.ArrayRemove | model/src/main/java/com/goodow/wind/model/json/JArray.java:124-133 | `remove(idx, length)` fails its assertion for a non-positive length, throws index-out-of-bounds past the end, and otherwise removes those elements in place and submits the single-delete op |
| Contexts.Context.ObjectPut | model/src/main/java/com/goodow/wind/model/json/JObject.java:194-201 | `put` succeeds exactly for a valid key, sets it in place (Java null as JSON null) and submits the op `update(key, current, value)` |
| Contexts.Context.ObjectRemove | model/src/main/java/com/goodow/wind/model/json/JObject.java:120-127 | `remove` of an absent key changes and submits nothing; of a present key removes it in place and submits the removal op |
| Contexts.Context.NullAs | model/src/main/java/com/goodow/wind/model/json/JNull.java:34-56 | `asArray`/`asObject`/`asString`/`asNumber` write the empty value over the null and submit the replace op from null to it |
| Contexts.Context.ChildNullAs | model/src/main/java/com/goodow/wind/model/json/JArray.java:44-45 | turning a child reached by `get` into a container: nothing there is a null reference, a non-null value fails the cast, a null is written over and the replace op submitted |
| Contexts.Context.ArrayAsContainer | model/src/main/java/com/goodow/wind/model/json/JArray.java:40-58 | `asArray(idx)`/`asObject(idx)`: past the length fails the assertion, a negative index throws, at the length an empty container is appended and the insert submitted, a null is turned into the container, any other value is left |
| Contexts.Context.ObjectAsContainer | model/src/main/java/com/goodow/wind/model/json/JObject.java:40-56 | `asArray(key)`/`asObject(key)`: an absent key is put with an empty container (when the key is valid), a null is turned into it, any other value is left |
| Contexts.GetSegment | model/src/main/java/com/goodow/wind/model/json/Context.java:101-127 | one segment of `get`: the member before the first `[`, then each `[i]` step, exactly as `SegmentGet` says |
| Contexts.ForeignWalk | model/src/main/java/com/goodow/wind/model/json/JArray.java:144-177 | a string op walked over an array's callbacks (or an array op over a string's) passes exactly when it only retains, and otherwise fails the argument cast |
| ObjectOps.Folded | model/src/main/java/com/goodow/wind/model/json/ObjectOp.java:50-51 | the copied op keeps every key and every other component; at `key` the old value becomes the replayed one and the new value stays |
| ObjectOps.ChildOfKey | model/src/main/java/com/goodow/wind/model/json/ObjectOp.java:38-55 | for a child below `key`: both ops pass through when the object op leaves `key` alone, a missing old value fails the assertion, a failing replay fails the transform, and otherwise the parent op carries the replayed old value and the child op is dropped |
| ObjectOps.ParentWins | model/src/main/java/com/goodow/wind/model/json/ObjectOp.java:46-54 | the transformed parent op applied after the child's edit gives the same object as the parent op alone |
| ArrayOps.ArrayAppender.constructor | model/src/main/java/com/goodow/wind/model/json/ArrayOp.java:28-29 | an appender starts with an empty array |
| ArrayOps.ArrayAppender.Append | model/src/main/java/com/goodow/wind/model/json/ArrayOp.java:32-36 | setting each element at the current length appends the whole list, in order |
| ArrayOps.ArrayAppender.Flush | model/src/main/java/com/goodow/wind/model/json/ArrayOp.java:39-45 | `flush` returns what was collected and leaves an empty array behind |
| ArrayOps.StartsWith | model/src/main/java/com/goodow/wind/model/json/ArrayOp.java:64-74 | a list shorter than the prefix fails the assertion; otherwise the answer is true exactly when the list begins with the prefix |
| ArrayOps.Subset | model/src/main/java/com/goodow/wind/model/json/ArrayOp.java:82-88 | an empty range gives the empty array; a non-empty one succeeds exactly inside the list and then gives its elements `b` to `e - 1` |
| ArrayOps.LocateInBounds | model/src/main/java/com/goodow/wind/model/json/ArrayOp.java:133-165 | the first pass locates the child's index exactly when the index lies inside the array the op applies to |
| ArrayOps.InsertAfterChildMiscounted | model/src/main/java/com/goodow/wind/model/json/ArrayOp.java:148-150 | the shift as written counts inserts after the child's element: `[retain 1, insert [null]]` gives shift 1, yet element 0 stays at 0 |
| ArrayOps.RetainedElementTracked | model/src/main/java/com/goodow/wind/model/json/ArrayOp.java:166-175 | with the corrected shift, a retained element ends exactly at its index plus the shift, for every op that applies |
| ArrayOps.RebuiltReplaysCovered | model/src/main/java/com/goodow/wind/model/json/ArrayOp.java:177-212 | the second pass replays the child on exactly the covered element, fails as that replay fails, and copies every other component |
| ArrayOps.ParentWins | model/src/main/java/com/goodow/wind/model/json/ArrayOp.java:177-215 | the rebuilt parent op applied after the child's edit gives the same array as the parent op alone |
| ArrayOps.ChildOutsideArray | model/src/main/java/com/goodow/wind/model/json/ArrayOp.java:165 | a child index outside the array the op applies to fails the located assertion |
| ArrayOps.ChildOfRetained | model/src/main/java/com/goodow/wind/model/json/ArrayOp.java:166-175 | a child in a retained element: both ops pass through without a shift, otherwise the child is re-addressed at the shifted index |
| ArrayOps.ChildOfDeleted | model/src/main/java/com/goodow/wind/model/json/ArrayOp.java:177-215 | a child in a deleted element: the parent op records the element with the child's edit replayed and the child op is dropped; a failing replay fails the transform |
| ArrayOps.ChildPathFixedFound | model/src/main/java/com/goodow/wind/model/json/ArrayOp.java:171-172 | the corrected child path leads back through the array's path to the shifted index and the child's remaining steps |
| ArrayOps.ChildPathAsWrittenMisplaced | model/src/main/java/com/goodow/wind/model/json/ArrayOp.java:171-172 | the path as written takes the child path's own parent: a child at `[0].x` moves to `[0][1]` instead of `[1].x` |
| ArrayOps.ChildPathFixedPlaced | model/src/main/java/com/goodow/wind/model/json/ArrayOp.java:171-172 | the corrected path moves the same child to `[1].x` |
| ArrayOps.PassWithoutIndex | model/src/main/java/com/goodow/wind/model/json/ArrayOp.java:130-165 | without a child index the first pass dereferences null at its first retain or delete, and an op of inserts only fails the located assertion |
| ArrayOps.PassLocates | model/src/main/java/com/goodow/wind/model/json/ArrayOp.java:133-165 | the callback pass reports what `Locate` computes: not found fails the assertion, otherwise whether a delete covers the index and the shift as written |
| ArrayOps.LocateChild | model/src/main/java/com/goodow/wind/model/json/ArrayOp.java:130-165 | the first pass as a loop over the components gives exactly those outcomes |
| ArrayOps.ReplayDeleted | model/src/main/java/com/goodow/wind/model/json/ArrayOp.java:184-193 | the copy loop over a covering delete's items gives the items with only the child's element replayed |
| ArrayOps.CopyComponent | model/src/main/java/com/goodow/wind/model/json/ArrayOp.java:181-210 | one callback of the second pass gives the component as `Copied` says: a covering delete rebuilt, anything else passed on |
| ArrayOps.RebuildOp | model/src/main/java/com/goodow/wind/model/json/ArrayOp.java:177-212 | the second pass as a loop builds exactly the op `Rebuilt` gives |
| ArrayOps.TransformWithChild | model/src/main/java/com/goodow/wind/model/json/ArrayOp.java:128-216 | the two passes as written give exactly `Transformed` with the shift and child path as written |
| JsonOps.KeyToType | model/src/main/java/com/goodow/wind/model/json/JsonOp.java:38-45 | a tag names a type exactly when it is one of the five op tags, never BOOLEAN; the list tag names ARRAY unless another tag equal to it is put after it |
| Json.AsNumber | realtime/src/main/java/elemental/json/impl/JreJsonArray.java:47-56 | a number is itself; an array of no element counts 0, of one element that element's number, of more NaN (no number here) |
| Json.AsNumberOfArrays | realtime/src/main/java/elemental/json/impl/JreJsonArray.java:47-56 | the empty array is 0, a one-element array and a nested one are the number inside, a two-element array is no number |
| JsonOps.CreateOp | model/src/main/java/com/goodow/wind/model/json/JsonOp.java:76-92 | BOOLEAN throws illegal-argument; for a number type an op is made exactly when the value has a number, with that delta; an op made always targets the type asked for |
| JsonOps.Parse | model/src/main/java/com/goodow/wind/model/json/JsonOp.java:68-74 | not exactly two keys fails the assertion, a missing path is a null; a parsed op carries the path the wire object holds and the type its other key names |
| JsonOps.TagNamesType | model/src/main/java/com/goodow/wind/model/json/JsonOp.java:38-45 | the wire tag of every op but the no-op is not the path key, and names the type of the value the op applies to |
| JsonOps.ParseToWire | model/src/main/java/com/goodow/wind/model/json/JsonOp.java:68-74 | parsing the two-key wire object of an op gives back the op at its path (Java nulls read back as JSON nulls) |
| JsonOps.ComposeOps | model/src/main/java/com/goodow/wind/model/json/JsonOp.java:112 | the no-op throws illegal-state, a replace, number or object op asserts the other op is of its kind, a list op fails the cast; a result keeps the kind, and number ops add their deltas |
| JsonOps.ComposeJsonOps | model/src/main/java/com/goodow/wind/model/json/JsonOp.java:108-113 | a no-op on either side fails the assertion; a composition keeps the receiver's path |
| JsonOps.TransformOps | model/src/main/java/com/goodow/wind/model/json/JsonOp.java:167 | the no-op throws illegal-state, a replace, number or object op asserts the client op is of its kind, a list op fails the cast; both results keep the server's kind |
| JsonOps.TransformWith | model/src/main/java/com/goodow/wind/model/json/JsonOp.java:146-170 | a no-op on either side fails the assertion |
| JsonOps.TransformUnrelated | model/src/main/java/com/goodow/wind/model/json/JsonOp.java:150-164 | ops at paths neither of which is an ancestor of the other pass unchanged |
| JsonOps.TransformAncestor | model/src/main/java/com/goodow/wind/model/json/JsonOp.java:151-162 | whichever op's path is an ancestor of the other's goes to the child transform as the parent, the server flag saying which side it came from |
| JsonOps.TransformSamePath | model/src/main/java/com/goodow/wind/model/json/JsonOp.java:166-169 | ops at one path transform exactly as their kinds do, and both results keep the path |
| JsonOps.InvertJsonOpInvolution | model/src/main/java/com/goodow/wind/model/json/JsonOp.java:129-131 | inverting twice gives back the op |
| JsonOps.ObjectConsumed | model/src/main/java/com/goodow/wind/model/json/JObject.java:131-145 | an object op consumed at an object's path applies the map algebra to the members and writes them back in place |
| JsonOps.ObjectApplyValidKeys | model/src/main/java/com/goodow/wind/model/json/JObject.java:131-145 | with only valid keys put, the object accepts an op exactly when the map algebra does, with the same members |
| JsonOps.SamePathObjectTransformed | model/src/main/java/com/goodow/wind/model/json/JsonOp.java:166-169 | two object ops at one path transform as the map algebra does, succeeding exactly when shared keys start from one value |
| JsonOps.SamePathObjectConverges | model/src/main/java/com/goodow/wind/model/json/JsonOp.java:146-170 | server op then transformed client op, and client op then transformed server op, leave the document the same, and one order fails exactly when the other does |
| JsonOps.ObjectTransformedConsumed | model/src/main/java/com/goodow/wind/model/json/JsonOp.java:166-169 | the map algebra's transform converges on the document at an object's path |
| JsonOps.ObjectComposeConsumed | model/src/main/java/com/goodow/wind/model/json/JsonOp.java:108-113 | consuming the composition of two object ops leaves the document as consuming them in turn, and composition fails exactly when the second does not chain onto the first |
| JsonOps.SamePathObjectComposed | model/src/main/java/com/goodow/wind/model/json/JsonOp.java:108-113 | two object ops at one path compose exactly as the map algebra does, at that path |
| JsonOps.BuildJsonFromInitialOp | model/src/main/java/com/goodow/wind/model/json/JsonOp.java:48-65 | the initial op must be a replace at the root from Java null, and then it builds the value written |
| JsonOps.ExampleDifferentPath | model/src/test/java/com/goodow/wind/model/json/JsonOpTest.java:37-41 | against an op at the unrelated path `diffPath` both ops pass unchanged |
| JsonOps.ExampleSamePath | model/src/test/java/com/goodow/wind/model/json/JsonOpTest.java:43-50 | at the same path the server op empties and the client op changes `a` from `value1` to `value2` |
| JsonOps.ExampleEmbeddedPath | model/src/test/java/com/goodow/wind/model/json/JsonOpTest.java:52-62 | the truncation of `a` lands in the server op's old value (`str`), the client op becomes the no-op, and with the roles swapped the pair comes back swapped |
| JsonModels.Collect | model/src/main/java/com/goodow/wind/model/json/JsonModel.java:49-54 | the collector takes ops of its own list kind on top of the run so far; an op of the other list kind fails the cast |
| JsonModels.ComposeListOps | model/src/main/java/com/goodow/wind/model/json/JsonModel.java:121-128 | an idle collector leaves the output; otherwise only the last output op is replaced by the composition, or removed when it is the no-op |
| JsonModels.Compose | model/src/main/java/com/goodow/wind/model/json/JsonModel.java:31-69 | the loop over the ops, with the path, the output stack and the collector, gives exactly the composition as written |
| JsonModels.NumberStep | model/src/main/java/com/goodow/wind/model/json/JsonModel.java:55-60 | one number op taken by the corrected compose keeps the output settled and adds the op's delta at its path |
| JsonModels.NumberRunComposed | model/src/main/java/com/goodow/wind/model/json/JsonModel.java:38-63 | a run of number ops taken from a settled state adds at every path what the run adds there |
| JsonModels.ComposeKeepsNet | model/src/main/java/com/goodow/wind/model/json/JsonModel.java:31-69 | the corrected compose of number ops succeeds and adds at every path exactly what the input adds there |
| JsonModels.ComposeNewPaths | model/src/main/java/com/goodow/wind/model/json/JsonModel.java:41-46 | ops whose neighbours are all at other paths are pushed as they are: compose gives back its input |
| JsonModels.Pushed | model/src/main/java/com/goodow/wind/model/json/JsonModel.java:41-46 | an op at a new path is pushed and becomes the current path |
| JsonModels.Summed | model/src/main/java/com/goodow/wind/model/json/JsonModel.java:55-60 | a number op at the current path on top of a number op: the sum replaces the top, or the top goes when the sum is zero |
| JsonModels.ComposeAsWrittenMerges | model/src/main/java/com/goodow/wind/model/json/JsonModel.java:56-62 | as written, once `p: +1` and `p: -1` cancel, `p: +5` is composed into the op at `q`, so the run's net delta at `p` is lost |
| JsonModels.ComposeCorrectedKeeps | model/src/main/java/com/goodow/wind/model/json/JsonModel.java:56-62 | corrected, the same run composes to `q: +1` and `p: +5` |
| JsonModels.TransformAgainst | model/src/main/java/com/goodow/wind/model/json/JsonModel.java:97-114 | the inner loop over the client ops, with its removals and write-backs, gives exactly `InnerPass` |
| JsonModels.Transform | model/src/main/java/com/goodow/wind/model/json/JsonModel.java:90-118 | the two loops over copies of both lists give exactly `Transformed` |
| JsonModels.InnerConverges | model/src/main/java/com/goodow/wind/model/json/JsonModel.java:97-114 | given a pairwise transform that converges on every document and pair of ops, the corrected inner loop converges too: the server op then the transformed client ops end where the client ops then the surviving server op end |
| JsonModels.TransformConverges | model/src/main/java/com/goodow/wind/model/json/JsonModel.java:90-118 | given a pairwise transform that converges on every document and pair of ops, the corrected transform converges on lists too: server ops then transformed client ops end where client ops then transformed server ops end |
| JsonModels.CreateOp | model/src/main/java/com/goodow/wind/model/json/JsonModel.java:77-79 | a delta that is not an object fails the cast; a parsed op carries the path the object holds |
| JsonModels.CreateOpReadsWire | model/src/main/java/com/goodow/wind/model/json/JsonModel.java:77-79 | the wire form of an op read back with `createOp` is the op, Java nulls read as JSON nulls |
| JsonModels.TransformAsWrittenDiverges | model/src/main/java/com/goodow/wind/model/json/JsonModel.java:103-108 | as written, a server op that wins outright drops the transformed client op: `a: string -> value2` comes back as it was and is rejected after the server op |
| JsonModels.TransformCorrectedConverges | model/src/main/java/com/goodow/wind/model/json/JsonModel.java:103-108 | corrected, the client op `a: value1 -> value2` is kept and both sides reach `{"a": "value2"}` |
| JsonModels.ComposeExample | model/src/test/java/com/goodow/wind/model/json/JsonModelTest.java:27-39 | the retain at `s`, +1 and +2 at `n`, insert and delete of `abc` at `s` compose to the retain and +3 |
| JsonModels.TransformExample | model/src/test/java/com/goodow/wind/model/json/JsonModelTest.java:42-57 | the server side becomes delete `de` and +3, the client side -3 |
| Ids.AlphabetLayout | model/src/main/java/com/goodow/wind/model/id/RandomBase64Generator.java:24-25 | every draw below 64 names a web-safe character, and reading that character back gives the draw: the 64 characters are distinct |
| Ids.SpelledDetermines | model/src/main/java/com/goodow/wind/model/id/RandomBase64Generator.java:40-46 | every character of a generated string is web-safe, and the string determines the draws behind it |
| Ids.RandomBase64Generator.constructor | model/src/main/java/com/goodow/wind/model/id/RandomBase64Generator.java:33-35 | the generator holds the given source and has drawn nothing |
| Ids.RandomBase64Generator.Next | model/src/main/java/com/goodow/wind/model/id/RandomBase64Generator.java:40-46 | `next(length)` spells the next `length` draws, one alphabet character each, and advances the source by `length`; a negative length is refused by the builder and draws nothing |
| Ids.Parse | server/src/main/java/com/goodow/wind/server/model/ObjectId.java:33-39 | a null key fails; a key parses exactly when it has a `/` before its last character, into a kind without `/` and a non-empty id |
| Ids.Make | server/src/main/java/com/goodow/wind/server/model/ObjectId.java:41-44 | an id is made exactly when neither part is null, and holds both parts |
| Ids.ToString | server/src/main/java/com/goodow/wind/server/model/ObjectId.java:71-74 | the printed id is the kind, `/`, then the id |
| Ids.PrintParsed | server/src/main/java/com/goodow/wind/server/model/ObjectId.java:33-39 | every key the parser accepts prints back exactly |
| Ids.ParsePrinted | server/src/main/java/com/goodow/wind/server/model/ObjectId.java:71-74 | an id's printed form parses back to it exactly when its kind has no `/` and its id is not empty |
| JsonLoaders.InitialValue | server/src/main/java/com/goodow/wind/server/model/JsonLoader.java:138-158 | every type but NULL has an initial value of that type; NULL is unsupported |
| JsonLoaders.CreateInitOp | server/src/main/java/com/goodow/wind/server/model/JsonLoader.java:137-164 | NULL is unsupported; otherwise one delta, under the session |
| JsonLoaders.InitialDeltaReads | server/src/main/java/com/goodow/wind/server/model/JsonLoader.java:159-163 | the initial delta reads back as the replace at the root from JSON null to the initial value |
| JsonLoaders.InitialDeltaAsWrittenRefused | server/src/main/java/com/goodow/wind/server/model/JsonLoader.java:159-163 | as written, the slob built from the initial delta refuses it: the old value reads back as JSON null where Java null is asserted |
| JsonLoaders.InitialDeltaCreates | model/src/main/java/com/goodow/wind/model/json/JsonOp.java:48-65 | corrected, the initial delta builds the initial value of the requested type |
| JsonLoaders.GeneratedIdReadsBack | server/src/main/java/com/goodow/wind/server/model/JsonLoader.java:113-114 | a generated id prints as `kind/id` and parses back to itself |
| JsonLoaders.JsonLoader.constructor | server/src/main/java/com/goodow/wind/server/model/JsonLoader.java:64-70 | the loader keeps its codec, its model and its random generator |
| JsonLoaders.JsonLoader.LoadOrCreate | server/src/main/java/com/goodow/wind/server/model/JsonLoader.java:107-128 | null key or session fails; a key without `/` gets 16 new random characters as id and a new object; any other key is parsed, and the object is created only when it is not stored |
| JsonModelAdapters.BuildFromInitialOpFixed | model/src/main/java/com/goodow/wind/model/json/JsonOp.java:48-65 | corrected initial op: a replace at the root from Java null or JSON null builds its new value, the no-op builds JSON null, and it agrees with the code wherever the code succeeds |
| JsonModelAdapters.Applied | server/src/main/java/com/goodow/wind/server/model/JsonModelAdapter.java:46-62 | text that is not JSON is rejected as a malformed op; an unchecked failure that escapes comes only from `createOp` |
| JsonModelAdapters.AppliedPrinted | server/src/main/java/com/goodow/wind/server/model/JsonModelAdapter.java:56-60 | a printed op applied to a slob holding a value is the op read back and consumed by the value, its runtime failures rejected |
| JsonModelAdapters.JsonSlob.constructor | server/src/main/java/com/goodow/wind/server/model/JsonModelAdapter.java:41-43 | the slob holds the given value, or nothing |
| JsonModelAdapters.JsonSlob.Apply | server/src/main/java/com/goodow/wind/server/model/JsonModelAdapter.java:46-62 | `apply` passes exactly when `Applied` succeeds and then holds its value; a failure carries `Applied`'s error |
| JsonModelAdapters.JsonSlob.Snapshot | server/src/main/java/com/goodow/wind/server/model/JsonModelAdapter.java:66-68 | a snapshot exists exactly while the slob holds a value, and parses back to that value |
| JsonModelAdapters.Create | server/src/main/java/com/goodow/wind/server/model/JsonModelAdapter.java:79-89 | no snapshot gives an empty slob; a snapshot fails exactly when it is not JSON (invalid snapshot), and otherwise the slob holds the parsed value |
| JsonModelAdapters.ApplyDelta | server/src/main/java/com/goodow/wind/server/model/JsonModelAdapter.java:46-62 | the slob step the log uses succeeds exactly when the corrected `Applied` does, with its value or its error |
| JsonModelAdapters.ModelRestores | server/src/main/java/com/goodow/wind/server/model/JsonModelAdapter.java:66-88 | a slob created from its own snapshot holds the same value |
| JsonModelAdapters.ReadOp | server/src/main/java/com/goodow/wind/server/model/JsonModelAdapter.java:111-116 | as written, every payload becomes a JSON string and fails the cast in `createOp`; corrected, text that is not JSON is rejected |
| JsonModelAdapters.Deserialized | server/src/main/java/com/goodow/wind/server/model/JsonModelAdapter.java:108-120 | a list read in full gives one op per change |
| JsonModelAdapters.DeserializeOps | server/src/main/java/com/goodow/wind/server/model/JsonModelAdapter.java:108-120 | the loop pushing each op gives exactly `Deserialized` |
| JsonModelAdapters.Transform | server/src/main/java/com/goodow/wind/server/model/JsonModelAdapter.java:92-106 | the method gives exactly `Transformed`: the server ops read, then the client ops, then the model's transform, its client side returned |
| JsonModelAdapters.TransformAsWrittenFails | server/src/main/java/com/goodow/wind/server/model/JsonModelAdapter.java:108-120 | as written, `transform` fails with a class-cast failure as soon as either list holds a delta, whichever model transform follows |
| JsonModelAdapters.DeserializedPrinted | server/src/main/java/com/goodow/wind/server/model/JsonModelAdapter.java:108-120 | corrected, printed deltas read back as the ops they print |
| JsonModelAdapters.TransformFixedReadsOps | server/src/main/java/com/goodow/wind/server/model/JsonModelAdapter.java:92-106 | corrected, `transform` of printed deltas is the model's transform of the ops they print, its client side returned, a transform failure rejected |
| Slobs.ReplayedAppend | server/src/main/java/com/google/walkaround/slob/server/MutationLog.java:721-729 | replaying two runs of deltas is replaying the first and continuing from its state with the second |
| MutationLogs.DeltaIdFromVersion | server/src/main/java/com/google/walkaround/slob/server/MutationLog.java:477-479 | delta `v` is stored under the id `v + 1`, which is positive and reads back as `v` |
| MutationLogs.VersionFromDeltaId | server/src/main/java/com/google/walkaround/slob/server/MutationLog.java:522-524 | a positive delta id reads back as a version that is not negative |
| MutationLogs.ResultingVersion | server/src/main/java/com/google/walkaround/slob/server/MutationLog.java:428-430 | the version after a delta is its datastore id and reads back as the delta's own version |
| MutationLogs.CheckRange | server/src/main/java/com/google/walkaround/slob/server/MutationLog.java:765-778 | a range passes exactly when an end comes only with a start, the start is not negative and not past the end, and the width fits an `int`; an ill-formed range is an illegal argument, a too-wide one a failed assertion |
| MutationLogs.KeyBytes | server/src/main/java/com/google/walkaround/slob/server/MutationLog.java:481-491 | the estimate is three bytes per four characters, exact for a padded key and never above the true count |
| MutationLogs.Data | server/src/main/java/com/google/walkaround/slob/server/MutationLog.java:202-208 | `getStagedDeltas` gives the data of the staged entries, in order |
| MutationLogs.AcceptedReplays | server/src/main/java/com/google/walkaround/slob/server/MutationLog.java:117-127 | the deltas accepted are a prefix that replays to the run's state; the run stops only at a delta that state refuses, and it fails exactly when the whole replay fails |
| MutationLogs.ReversedTwice | server/src/main/java/com/google/walkaround/slob/server/MutationLog.java:932-934 | reversing twice gives the run back, so the deltas read newest first are applied in log order |
| MutationLogs.StageDeltasAccepts | server/src/main/java/com/google/walkaround/slob/server/MutationLog.java:117-127 | the loop stages exactly the accepted deltas under consecutive versions, adds their sizes to both counters and reports the refusal that stopped it |
| MutationLogs.AppendedAllStages | server/src/main/java/com/google/walkaround/slob/server/MutationLog.java:109-169 | no deltas change nothing; otherwise the accepted prefix is staged under consecutive versions, a refusal fails the call and stages no snapshot |
| MutationLogs.AppendedAllSnapshotRule | server/src/main/java/com/google/walkaround/slob/server/MutationLog.java:132-168 | a successful call stages at most one snapshot, the new state's at the new version, exactly when twice its size is below the bytes since the last snapshot plus that snapshot's, and then resets the counters to it |
| MutationLogs.StagingDelta | server/src/main/java/com/google/walkaround/slob/server/MutationLog.java:117-127 | staging a delta the state accepts keeps the invariant: the staged entries replay from the base to the state |
| MutationLogs.StagingSnapshot | server/src/main/java/com/google/walkaround/slob/server/MutationLog.java:132-168 | the snapshot step keeps that invariant |
| MutationLogs.StageAll | server/src/main/java/com/google/walkaround/slob/server/MutationLog.java:117-127 | the loop of `appendAll` stages exactly as `StageDeltas` says and keeps the invariant throughout |
| MutationLogs.Appender.constructor | server/src/main/java/com/google/walkaround/slob/server/MutationLog.java:90-95 | a new appender holds the state and version with nothing staged and the given byte counters |
| MutationLogs.Appender.HasNewDeltas | server/src/main/java/com/google/walkaround/slob/server/MutationLog.java:218-220 | the appender has staged deltas exactly when it has moved past the version it started from |
| MutationLogs.Appender.AppendAll | server/src/main/java/com/google/walkaround/slob/server/MutationLog.java:109-169 | after `finish` the call fails and changes nothing; otherwise the state, version and staged entries become those `AppendedAll` gives, and the invariant holds |
| MutationLogs.Appender.Append | server/src/main/java/com/google/walkaround/slob/server/MutationLog.java:100-103 | `append` is `appendAll` of the one delta |
| MutationLogs.Appender.ApplyAndStage | server/src/main/java/com/google/walkaround/slob/server/MutationLog.java:117-127 | the delta loop leaves the fields as `StageDeltas` gives them |
| MutationLogs.Appender.StageSnapshotIfWorthIt | server/src/main/java/com/google/walkaround/slob/server/MutationLog.java:132-168 | the end of `appendAll` stages the snapshot as `StageSnapshot` says and leaves state and version |
| MutationLogs.Appender.Finish | server/src/main/java/com/google/walkaround/slob/server/MutationLog.java:184-200 | one-shot: a second call fails and changes nothing; the first hands over the staged entries and the cache entry of the new state and clears what was staged |
| MutationLogs.LatestSnapshot | server/src/main/java/com/google/walkaround/slob/server/MutationLog.java:845-863 | the snapshot version found is stored and at or before the bound, and no stored one at or before the bound is later |
| MutationLogs.CreateObject | server/src/main/java/com/google/walkaround/slob/server/MutationLog.java:780-787 | the state is created exactly when the model accepts the snapshot, at the version given; an invalid snapshot becomes a runtime error |
| MutationLogs.Corrupt | server/src/main/java/com/google/walkaround/slob/server/MutationLog.java:723-728 | a delta refused during a replay of stored history is reported as corruption; other outcomes pass as they are |
| MutationLogs.SnapshottedStateRestores | server/src/main/java/com/google/walkaround/slob/server/MutationLog.java:590-593 | on a consistent log the latest snapshot at or before a version restores the state at the snapshot's version |
| MutationLogs.ReconstructReplays | server/src/main/java/com/google/walkaround/slob/server/MutationLog.java:705-737 | on a consistent log `reconstruct` gives the replay of the deltas up to the version asked for (all for null); a negative version is refused, one past the last delta is a runtime error |
| MutationLogs.CacheValid | server/src/main/java/com/google/walkaround/slob/server/MutationLog.java:652-665 | a cached version is current exactly when the log has that many deltas, stale when it has more, and missing data when it has fewer |
| MutationLogs.SlowCaseReplays | server/src/main/java/com/google/walkaround/slob/server/MutationLog.java:890-949 | on a consistent log the slow case starts the appender at the current state and version, having read the newest delta first |
| MutationLogs.SlowCaseCatchesUp | server/src/main/java/com/google/walkaround/slob/server/MutationLog.java:899-946 | with deltas in the log, the slow case brings the latest snapshot up to date |
| MutationLogs.PrepareReplays | server/src/main/java/com/google/walkaround/slob/server/MutationLog.java:614-692 | whether or not the cache is current, a prepared appender on a consistent log with a consistent cache starts at the current state and version |
| MutationLogs.PreparedAtHead | server/src/main/java/com/google/walkaround/slob/server/MutationLog.java:614-692 | a prepared appender starts at the log's version, and the deltas read on the way are the newest ones, newest first |
| MutationLogs.AddSnapshots | server/src/main/java/com/google/walkaround/slob/server/MutationLog.java:963-977 | the committed snapshots are the stored ones and the staged ones, each with its own data |
| MutationLogs.Put | server/src/main/java/com/google/walkaround/slob/server/MutationLog.java:951-978 | the committed log holds the staged deltas after the stored ones and every staged snapshot |
| MutationLogs.CommitKeepsConsistent | server/src/main/java/com/google/walkaround/slob/server/MutationLog.java:184-200 | committing what an appender staged on a consistent log keeps it consistent: the deltas replay to the appender's state, staged snapshots match the states at their versions, and the cache entry is consistent |
| MutationLogs.ApplyAll | server/src/main/java/com/google/walkaround/slob/server/MutationLog.java:721-729 | the forward loop applies the deltas in order and reports a refused one as corruption |
| MutationLogs.ReadBack | server/src/main/java/com/google/walkaround/slob/server/MutationLog.java:921-931 | the reverse read collects the deltas back to the snapshot's version, newest first, and adds up their sizes |
| MutationLogs.StateCache.constructor | server/src/main/java/com/google/walkaround/slob/server/MutationLog.java:363-371 | a new cache holds no entries |
| MutationLogs.MutationLog.constructor | server/src/main/java/com/google/walkaround/slob/server/MutationLog.java:535-552 | the log keeps its model, object id and cache |
| MutationLogs.MutationLog.Reconstruct | server/src/main/java/com/google/walkaround/slob/server/MutationLog.java:705-737 | the method gives exactly `Reconstruction` |
| MutationLogs.MutationLog.PrepareSlowCase | server/src/main/java/com/google/walkaround/slob/server/MutationLog.java:890-949 | the method gives exactly `SlowCase`: the reverse read back to the snapshot, then the deltas in log order |
| MutationLogs.MutationLog.PrepareAppender | server/src/main/java/com/google/walkaround/slob/server/MutationLog.java:614-692 | a stale cached entry is evicted, and the appender starts where `Prepare` says with nothing staged |
| MutationLogs.MutationLog.Commit | server/src/main/java/com/google/walkaround/slob/server/MutationLog.java:184-200 | after `finish` the log is the `put` of the staged entries and the cache holds the new state's entry for the object |
| MutationLogs.GetVersion | server/src/main/java/com/google/walkaround/slob/server/MutationLog.java:598-606 | intended: the resulting version of the newest delta, zero exactly for an empty log |
| MutationLogs.GetVersionAsWrittenLags | server/src/main/java/com/google/walkaround/slob/server/MutationLog.java:598-606 | as written, `getVersion` reads the newest delta's id back as a version and lags by one: one delta reads as 0 while `reconstruct(null)` reaches 1 |
| MutationLogs.GetVersionReconstructs | server/src/main/java/com/google/walkaround/slob/server/MutationLog.java:598-606 | the intended `getVersion` is the version `reconstruct(null)` rebuilds |
| MutationLogs.CommittedSnapshots | server/src/main/java/com/google/walkaround/slob/server/MutationLog.java:184-200 | every snapshot of the committed log, stored before or staged by the appender, is at most the new head version and equals the snapshot of the replayed state at its version |
| LocalMutationProcessors.Suffixed | server/src/main/java/com/google/walkaround/slob/server/LocalMutationProcessor.java:110-123 | a suffix found is the history from the version to the head; a negative version runs the reverse iterator dry (runtime failure), and only a version past the head is out of bounds |
| LocalMutationProcessors.SuffixedIsTail | server/src/main/java/com/google/walkaround/slob/server/LocalMutationProcessor.java:110-113 | every version from 0 to the head has its suffix, empty exactly at the head |
| LocalMutationProcessors.TransformDeltaCache.constructor | server/src/main/java/com/google/walkaround/slob/server/LocalMutationProcessor.java:95-100 | the cache holds the version on disk, the tail deltas read backwards and the reverse iterator, with nothing staged |
| LocalMutationProcessors.TransformDeltaCache.AppendAll | server/src/main/java/com/google/walkaround/slob/server/LocalMutationProcessor.java:102-104 | the staged deltas are extended by the update's, and nothing read from disk changes |
| LocalMutationProcessors.TransformDeltaCache.Suffix | server/src/main/java/com/google/walkaround/slob/server/LocalMutationProcessor.java:110-119 | older deltas are read until the cache reaches the version, and the result is `Suffixed` of the whole history, staged deltas included |
| LocalMutationProcessors.Changes | server/src/main/java/com/google/walkaround/slob/server/LocalMutationProcessor.java:292-298 | one delta per payload, in order, each under the update's client |
| LocalMutationProcessors.Incoming | server/src/main/java/com/google/walkaround/slob/server/LocalMutationProcessor.java:229-243 | without concurrent deltas the changes are the payloads; otherwise they are the model's transform of them past the concurrent deltas, or its failure |
| LocalMutationProcessors.Response | server/src/main/java/com/google/walkaround/slob/server/LocalMutationProcessor.java:246-254 | all changes staged answers with the staged version; a refused change is a rejection with revision -1; any other failure is thrown |
| LocalMutationProcessors.CacheAfterAsWritten | server/src/main/java/com/google/walkaround/slob/server/LocalMutationProcessor.java:246-251 | as written, the delta cache grows by the changes only when the appender took them all |
| LocalMutationProcessors.CacheAfter | server/src/main/java/com/google/walkaround/slob/server/LocalMutationProcessor.java:246-251 | intended, the delta cache grows by exactly the changes the appender staged, the ones before a refused one included |
| LocalMutationProcessors.CacheAfterStaysInSync | server/src/main/java/com/google/walkaround/slob/server/LocalMutationProcessor.java:246-251 | whatever the appender does, the intended cache holds exactly the deltas the appender staged |
| LocalMutationProcessors.AsWrittenLosesStagedDelta | server/src/main/java/com/google/walkaround/slob/server/LocalMutationProcessor.java:246-251 | as written, an update whose second change is refused leaves its first staged for commit while the delta cache misses it |
| LocalMutationProcessors.Numbered | server/src/main/java/com/google/walkaround/slob/server/LocalMutationProcessor.java:174-181 | each delta of the transaction is broadcast with the version after it, counted from the version on disk |
| LocalMutationProcessors.NumberedMatchesLog | server/src/main/java/com/google/walkaround/slob/server/LocalMutationProcessor.java:174-181 | the message `(d, v)` is the delta the committed log holds at version `v - 1`, and `v` is its entry's resulting version |
| LocalMutationProcessors.Tx.constructor | server/src/main/java/com/google/walkaround/slob/server/LocalMutationProcessor.java:137-147 | a transaction starts with no result, its version on disk the log's |
| LocalMutationProcessors.Tx.ProcessUpdate | server/src/main/java/com/google/walkaround/slob/server/LocalMutationProcessor.java:186-255 | another object is an illegal argument, a full batch is too large, an update past the version on disk is rejected; otherwise the changes, transformed past the concurrent suffix, are staged as `Stage` says, the delta cache extended by the accepted ones; every exit before staging (another object, a full batch, an update past disk, a suffix error, a refused transform) leaves the appender's state, version and staged deltas and the cache's new deltas as they were |
| LocalMutationProcessors.Tx.Stage | server/src/main/java/com/google/walkaround/slob/server/LocalMutationProcessor.java:246-254 | the appender applies the changes as `AppendedAll` says, the response follows its outcome, and only an accepted update becomes the last result |
| LocalMutationProcessors.Tx.Commit | server/src/main/java/com/google/walkaround/slob/server/LocalMutationProcessor.java:153-183 | nothing staged rolls back and changes nothing; otherwise the log becomes the `put` of the staged entries and, when an update was accepted, the staged deltas are broadcast numbered from the version on disk |
| LocalMutationProcessors.BeginTransaction | server/src/main/java/com/google/walkaround/slob/server/LocalMutationProcessor.java:137-147 | the transaction holds a fresh appender prepared on the log and a delta cache of the deltas read on the way, with no result yet |
| LocalMutationProcessors.MutateObject | server/src/main/java/com/google/walkaround/slob/server/LocalMutationProcessor.java:400-424 | a negative version or no payloads is an illegal argument; a rejected update is a bad request; an accepted one answers with its resulting revision |
| SlobMessageRouters.HeldSlot | server/src/main/java/com/google/walkaround/slob/server/SlobMessageRouter.java:217-221 | a slot found is the client's, and no lower slot from `from` on is |
| SlobMessageRouters.FreeSlot | server/src/main/java/com/google/walkaround/slob/server/SlobMessageRouter.java:225-229 | a slot found is free, and no lower slot from `from` on is |
| SlobMessageRouters.FreeKeyFinds | server/src/main/java/com/google/walkaround/slob/server/SlobMessageRouter.java:213-232 | the client's own slot when it holds one; otherwise the lowest free slot; none only when all slots are taken by other clients |
| SlobMessageRouters.FreeKeyKeepsOneSlot | server/src/main/java/com/google/walkaround/slob/server/SlobMessageRouter.java:162-167 | a client is added to a free slot only when it holds none, so no client ever holds two slots of an object |
| SlobMessageRouters.ListenersOf | server/src/main/java/com/google/walkaround/slob/server/SlobMessageRouter.java:207-208 | the listeners of an object are exactly the clients in its slots |
| SlobMessageRouters.Sends | server/src/main/java/com/google/walkaround/slob/server/SlobMessageRouter.java:208-209 | one message per listener, each carrying the text |
| SlobMessageRouters.SlobMessageRouter.constructor | server/src/main/java/com/google/walkaround/slob/server/SlobMessageRouter.java:138-144 | a new router has no listeners, no tokens and no messages sent |
| SlobMessageRouters.SlobMessageRouter.GetFreeKeyForListener | server/src/main/java/com/google/walkaround/slob/server/SlobMessageRouter.java:213-232 | the two loops over the slots find exactly `FreeKey` |
| SlobMessageRouters.SlobMessageRouter.TokenFor | server/src/main/java/com/google/walkaround/slob/server/SlobMessageRouter.java:253-267 | a client's existing token is returned; otherwise a new channel's token is remembered and returned; listeners and messages are untouched |
| SlobMessageRouters.SlobMessageRouter.ConnectListener | server/src/main/java/com/google/walkaround/slob/server/SlobMessageRouter.java:154-191 | the call fails exactly when all slots are taken or every add-if-absent attempt is lost, changing nothing; a held slot is refreshed, a won add takes the free slot; the client then gets its (existing) token; no client holds two slots |
| SlobMessageRouters.SlobMessageRouter.PublishMessages | server/src/main/java/com/google/walkaround/slob/server/SlobMessageRouter.java:196-211 | text over 8000 characters sends nothing; otherwise exactly one message to each listener of the object, in some order, and nothing else changes |
| RestrictedChannels.NextState | server/src/main/java/com/google/walkaround/util/server/writebatch/RestrictedChannel.java:79-85 | the next state is `YOUR_TURN_RECEIVED` exactly after a first `YOUR_TURN`, `CLOSED` exactly after a final message before closing, and an assertion error exactly for a second `YOUR_TURN` or anything once closed |
| RestrictedChannels.WalkRefusesThird | server/src/main/java/com/google/walkaround/util/server/writebatch/RestrictedChannel.java:36-47 | no run of three messages from the initial state is admitted |
| RestrictedChannels.WalkAccepts | server/src/main/java/com/google/walkaround/util/server/writebatch/RestrictedChannel.java:36-47 | an admitted run has at most two messages, a second one only after `YOUR_TURN` and final; the channel ends closed exactly when the run ends in a final message |
| RestrictedChannels.RestrictedChannel.constructor | server/src/main/java/com/google/walkaround/util/server/writebatch/RestrictedChannel.java:49-55 | a new channel is in the initial state with an empty slot and nothing sent |
| RestrictedChannels.RestrictedChannel.IsEmpty | server/src/main/java/com/google/walkaround/util/server/writebatch/RestrictedChannel.java:57-59 | empty exactly when the capacity-one slot holds no message |
| RestrictedChannels.RestrictedChannel.Receive | server/src/main/java/com/google/walkaround/util/server/writebatch/RestrictedChannel.java:61-63 | receiving takes the message out of the slot and changes no state |
| RestrictedChannels.RestrictedChannel.Send | server/src/main/java/com/google/walkaround/util/server/writebatch/RestrictedChannel.java:65-72 | a full slot is an illegal state and a refused transition an assertion failure, both changing nothing; otherwise the state moves on and the message fills the slot; at most two messages are ever sent, the first a `YOUR_TURN` when there are two |
| ReceiveOpChannels.DrainCounts | channel/src/main/java/com/goodow/wind/channel/op/ReceiveOpChannelImpl.java:234-249 | the loop delivers consecutive revisions from the next one, `op` first, and the current revision advances by the number delivered |
| ReceiveOpChannels.DrainTakesWaiting | channel/src/main/java/com/goodow/wind/channel/op/ReceiveOpChannelImpl.java:240-245 | every delivery after the first is the operation that was waiting at that revision |
| ReceiveOpChannels.DrainLeaves | channel/src/main/java/com/goodow/wind/channel/op/ReceiveOpChannelImpl.java:240-251 | the waiting operations up to the revision after the new current one are removed, the rest kept unchanged; without a listener exception nothing waits at the next revision |
| ReceiveOpChannels.ArriveKeepsOrder | channel/src/main/java/com/goodow/wind/channel/op/ReceiveOpChannelImpl.java:200-252 | in an ordered channel neither assertion fails, the channel stays ordered, the known head becomes the maximum, and deliveries continue the current revision consecutively |
| ReceiveOpChannels.ArriveClassifies | channel/src/main/java/com/goodow/wind/channel/op/ReceiveOpChannelImpl.java:201-230 | old and waiting duplicates change only the known head; a mismatch is reported exactly for a waiting duplicate from another session; an early operation not yet waiting is stored and schedules a catch-up; the next revision is delivered |
| ReceiveOpChannels.ArriveReleasesWaiting | channel/src/main/java/com/goodow/wind/channel/op/ReceiveOpChannelImpl.java:224-251 | the operation at the next revision releases the whole consecutive run waiting after it, each with its waiting operation |
| ReceiveOpChannels.DrainLoop | channel/src/main/java/com/goodow/wind/channel/op/ReceiveOpChannelImpl.java:234-249 | the `while (true)` loop computes exactly the delivery run `Drain` specifies |
| ReceiveOpChannels.ReceiveOpChannel.constructor | channel/src/main/java/com/goodow/wind/channel/op/ReceiveOpChannelImpl.java:87-103 | a new channel has no listener, revisions 0, no catch-up scheduled, not corrupted and not receiving |
| ReceiveOpChannels.ReceiveOpChannel.Connect | channel/src/main/java/com/goodow/wind/channel/op/ReceiveOpChannelImpl.java:106-115 | a second connect is an assertion failure changing nothing; the first sets the listener and both the current and known head revision to the given one |
| ReceiveOpChannels.ReceiveOpChannel.ScheduleCatchup | channel/src/main/java/com/goodow/wind/channel/op/ReceiveOpChannelImpl.java:191-198 | afterwards a catch-up is scheduled and nothing else changes |
| ReceiveOpChannels.ReceiveOpChannel.OnKnownHeadVersion | channel/src/main/java/com/goodow/wind/channel/op/ReceiveOpChannelImpl.java:123-133 | the known head becomes the maximum; a catch-up is scheduled exactly when it was or the head is past the current revision, so the closing assertion holds |
| ReceiveOpChannels.ReceiveOpChannel.MaybeCatchup | channel/src/main/java/com/goodow/wind/channel/op/ReceiveOpChannelImpl.java:164-173 | history is fetched from the current revision, and the catch-up revision set to the known head, exactly when behind the head and not already catching up to it |
| ReceiveOpChannels.ReceiveOpChannel.RunCatchupTask | channel/src/main/java/com/goodow/wind/channel/op/ReceiveOpChannelImpl.java:58-65 | the catch-up task clears its flag, catches up as `maybeCatchup` does, and does not repeat |
| ReceiveOpChannels.ReceiveOpChannel.UnguardedReceive | channel/src/main/java/com/goodow/wind/channel/op/ReceiveOpChannelImpl.java:200-252 | the channel's revisions, waiting operations and deliveries become those of `Arrive`; a mismatch reports one error |
| ReceiveOpChannels.ReceiveOpChannel.ReceiveUnorderedData | channel/src/main/java/com/goodow/wind/channel/op/ReceiveOpChannelImpl.java:175-189 | refused as an assertion when corrupted or re-entered, changing nothing; otherwise as `Arrive`, and a listener exception leaves the channel corrupted and still receiving |
| ReceiveOpChannels.ReceiveAll | channel/src/main/java/com/goodow/wind/channel/op/ReceiveOpChannelImpl.java:138-150 | receiving a message's operations in turn only adds deliveries and errors, and runs to the end only when every operation parsed |
| ReceiveOpChannels.ReceiveOpChannel.ReceiveNext | channel/src/main/java/com/goodow/wind/channel/op/ReceiveOpChannelImpl.java:139-149 | one operation: unparsed exactly when it carries no op, which reports one error; otherwise received as `ReceiveAll` says for it alone, with a refusal or listener failure passed on |
| ReceiveOpChannels.ReceiveOpChannel.ReceiveDeltas | channel/src/main/java/com/goodow/wind/channel/op/ReceiveOpChannelImpl.java:138-150 | the loop leaves the revisions, deliveries, error count and catch-up flag that `ReceiveAll` gives, stops at the first unparsed operation (one error reported) or the first refusal, and marks the channel corrupted exactly when the listener threw |
| ReceiveOpChannels.ReceiveOpChannel.OnMessage | channel/src/main/java/com/goodow/wind/channel/op/ReceiveOpChannelImpl.java:136-162 | the revisions, deliveries and errors reported are those of `ReceiveAll` over the message's operations; an unparsed operation ends the message normally and a refusal propagates, both before the head and the fetch; when all were received the known head takes in the message's version, a catch-up is scheduled when behind, and `hasMore` fetches from the current revision; deliveries only grow and the known head never falls; on success with every operation parsed the head covers every delta's and the message's version; failures are assertions or a propagated listener exception that corrupts the channel |
| ChannelRegistries.SnapshotTable.constructor | channel/src/main/java/com/goodow/wind/channel/ChannelRegistry.java:51-58 | a new snapshot table is empty |
| ChannelRegistries.Added | channel/src/main/java/com/goodow/wind/channel/ChannelRegistry.java:127 | the key's count is raised by `num` (from zero when absent) and every other entry is kept |
| ChannelRegistries.Subtracted | channel/src/main/java/com/goodow/wind/channel/ChannelRegistry.java:113-119 | the key stays exactly when its count exceeds `num`, then lowered by it; every other entry is kept |
| ChannelRegistries.AddedKeepsBelow | channel/src/main/java/com/goodow/wind/channel/ChannelRegistry.java:124-130 | raising a key along a child and its parent keeps each child count at most its parent's |
| ChannelRegistries.SubtractedKeepsBelow | channel/src/main/java/com/goodow/wind/channel/ChannelRegistry.java:109-122 | taking the child's count off the child and the parent keeps the order, so the `origNum == num` assertion never fails up the chain |
| ChannelRegistries.SubtractedUndoesAdded | channel/src/main/java/com/goodow/wind/channel/ChannelRegistry.java:109-130 | unregistering a key after it was added `num` times restores the counts |
| ChannelRegistries.CountsGrowUpward | channel/src/main/java/com/goodow/wind/channel/ChannelRegistry.java:109-130 | along a chain towards the root a key's count never falls |
| ChannelRegistries.TableShared | channel/src/main/java/com/goodow/wind/channel/ChannelRegistry.java:51-58 | every registry of a chain shares the root's snapshot table |
| ChannelRegistries.ChannelRegistry.constructor | channel/src/main/java/com/goodow/wind/channel/ChannelRegistry.java:51-58 | the root makes a fresh empty snapshot table, an extension shares its parent's; both start counting nothing |
| ChannelRegistries.ChannelRegistry.SharesRootTable | channel/src/main/java/com/goodow/wind/channel/ChannelRegistry.java:51-58 | every registry uses the table of the root at the end of its parent chain |
| ChannelRegistries.ChannelRegistry.CreateExtension | channel/src/main/java/com/goodow/wind/channel/ChannelRegistry.java:66-68 | the extension is a fresh child of this registry sharing its table and counting nothing |
| ChannelRegistries.ChannelRegistry.AddKey | channel/src/main/java/com/goodow/wind/channel/ChannelRegistry.java:124-130 | the key's count is raised by `num` in this registry and every ancestor |
| ChannelRegistries.ChannelRegistry.UnregisterSnapshot | channel/src/main/java/com/goodow/wind/channel/ChannelRegistry.java:109-122 | a key not counted here fails on the missing count and changes nothing; otherwise this registry's count is taken off here and in every ancestor, each entry dropped when it reaches zero |
| ChannelRegistries.ChannelRegistry.Open | channel/src/main/java/com/goodow/wind/channel/ChannelRegistry.java:90-100 | a key with a snapshot is counted once more up the chain and its snapshot goes to the callback; any other key is fetched, changing no count |
| ChannelRegistries.ChannelRegistry.RegisterSnapshot | channel/src/main/java/com/goodow/wind/channel/ChannelRegistry.java:102-107 | the key is counted once more up the chain; a key already in the table is an assertion failure, otherwise its snapshot and channel version are stored |
| ChannelRegistries.ChannelRegistry.GetVersion | channel/src/main/java/com/goodow/wind/channel/ChannelRegistry.java:86-88 | the version of the key's channel exactly when it has a snapshot, otherwise a null dereference |
| ChannelRegistries.ChannelRegistry.Keys | channel/src/main/java/com/goodow/wind/channel/ChannelRegistry.java:74-76 | exactly the keys this registry counts |
| JsonHandlerRegistries.FullPath | model/src/main/java/com/goodow/wind/model/json/JsonHandlerRegistry.java:67-69 | the full path is the key, the separator and the path's text (empty for no path), so the key is a prefix followed by `/` |
| JsonHandlerRegistries.FullPathInjective | model/src/main/java/com/goodow/wind/model/json/JsonHandlerRegistry.java:67-69 | for keys without `/` two full paths agree only when the keys and the path texts do |
| JsonHandlerRegistries.Registered | model/src/main/java/com/goodow/wind/model/json/JsonHandlerRegistry.java:41-53 | the handler is appended to the list at the full path, created along with the table when missing; every other list is unchanged |
| JsonHandlerRegistries.RegisteredTidy | model/src/main/java/com/goodow/wind/model/json/JsonHandlerRegistry.java:41-53 | registering a handler not yet in its list keeps the table free of empty lists, duplicates and an empty map |
| JsonHandlerRegistries.Unregistered | model/src/main/java/com/goodow/wind/model/json/JsonHandlerRegistry.java:71-83 | the first occurrence of the handler leaves the list at the full path and nothing else changes; no table stays no table |
| JsonHandlerRegistries.UnregisteredTidy | model/src/main/java/com/goodow/wind/model/json/JsonHandlerRegistry.java:71-83 | unregistering keeps the table tidy: an emptied list is dropped and an emptied table becomes none |
| JsonHandlerRegistries.RemoveFirstLast | model/src/main/java/com/goodow/wind/model/json/JsonHandlerRegistry.java:76 | removing an element appended to a list it was not in gives the list back |
| JsonHandlerRegistries.UnregisterUndoesRegister | model/src/main/java/com/goodow/wind/model/json/JsonHandlerRegistry.java:39-83 | in a tidy table, unregistering a handler just registered restores the table exactly |
| JsonHandlerRegistries.RestoredWhenNonEmpty | model/src/main/java/com/goodow/wind/model/json/JsonHandlerRegistry.java:39-83 | the round trip holds whenever the table and the list at the full path are non-empty when present |
| JsonHandlerRegistries.RestoredNewList | model/src/main/java/com/goodow/wind/model/json/JsonHandlerRegistry.java:46-48 | a list the registration created is dropped again, and the table with it when the registration created that too |
| JsonHandlerRegistries.RestoredLongerList | model/src/main/java/com/goodow/wind/model/json/JsonHandlerRegistry.java:49-53 | a list that existed before the registration gets back its old contents |
| JsonHandlerRegistries.JsonHandlerRegistry.constructor | model/src/main/java/com/goodow/wind/model/json/JsonHandlerRegistry.java:26-29 | a new registry has no table |
| JsonHandlerRegistries.JsonHandlerRegistry.CreateExtension | model/src/main/java/com/goodow/wind/model/json/JsonHandlerRegistry.java:31-33 | the extension is a fresh registry with no table |
| JsonHandlerRegistries.JsonHandlerRegistry.GetHandlers | model/src/main/java/com/goodow/wind/model/json/JsonHandlerRegistry.java:35-37 | the list at the key and path exactly when there is a table holding it, and it is then non-empty; otherwise null |
| JsonHandlerRegistries.JsonHandlerRegistry.RegisterHandler | model/src/main/java/com/goodow/wind/model/json/JsonHandlerRegistry.java:39-60 | an assertion fails exactly when the existing list holds the handler or its last handler prints differently, changing nothing; otherwise the handler is appended and a registration for it returned |
| JsonHandlerRegistries.JsonHandlerRegistry.UnregisterHandler | model/src/main/java/com/goodow/wind/model/json/JsonHandlerRegistry.java:62-65 | the table becomes the one with the handler taken out of the list at the key and path |
| JsonHandlerRegistries.JsonHandlerRegistry.RemoveHandler | model/src/main/java/com/goodow/wind/model/json/JsonHandlerRegistry.java:54-58 | removing a registration unregisters its handler at its key and path |
| IndexReferences.Shifted | realtime/src/main/java/com/goodow/realtime/IndexReference.java:106-124 | a deleted reference (index -1) stays deleted under any edit at a non-negative index |
| IndexReferences.InsertFollowsElement | realtime/src/main/java/com/goodow/realtime/IndexReference.java:108-113 | after an insertion the reference still points at the same element |
| IndexReferences.DeleteFollowsElement | realtime/src/main/java/com/goodow/realtime/IndexReference.java:108-124 | after a deletion a reference outside the range still points at its element; one inside is deleted when it can be, or else moves to the start of the range |
| IndexReferences.IndexReference.InitializeCreate | realtime/src/main/java/com/goodow/realtime/IndexReference.java:97-104 | the snapshot holds the referenced object's id, the index and the can-be-deleted flag, read back by the getters |
| IndexReferences.IndexReference.SetIndex | realtime/src/main/java/com/goodow/realtime/IndexReference.java:106-130 | a reference before the edit is unchanged and fires nothing; otherwise slot 1 takes the shifted index and one reference-shifted event with the old and new index and the session's locality is fired |
| CollaborativeStrings.CheckIndex | realtime/java/src/main/java/com/goodow/realtime/CollaborativeString.java:235-240 | passes exactly for a position within the text or at its end, otherwise an index error |
| CollaborativeStrings.CollaborativeString.Initialize | realtime/java/src/main/java/com/goodow/realtime/CollaborativeString.java:210-214 | the text starts as the initial value, or empty for null, with no events and nothing submitted |
| CollaborativeStrings.CollaborativeString.Length | realtime/java/src/main/java/com/goodow/realtime/CollaborativeString.java:123-125 | the length of the text |
| CollaborativeStrings.CollaborativeString.InsertAndFireEvent | realtime/java/src/main/java/com/goodow/realtime/CollaborativeString.java:253-260 | a position past the end fails its assertion and changes nothing; otherwise the text is spliced in and one insert event fired with the session's locality |
| CollaborativeStrings.CollaborativeString.DeleteAndFireEvent | realtime/java/src/main/java/com/goodow/realtime/CollaborativeString.java:242-251 | an empty or out-of-text range fails its assertion and changes nothing; otherwise the range is taken out and one delete event fired carrying the removed text |
| CollaborativeStrings.CollaborativeString.ConsumeComponent | realtime/java/src/main/java/com/goodow/realtime/CollaborativeString.java:186-206 | one callback of the walk succeeds exactly when the walk's step does and leaves the text and cursor the step gives, firing the step's edit |
| CollaborativeStrings.CollaborativeString.Consume | realtime/java/src/main/java/com/goodow/realtime/CollaborativeString.java:182-208 | succeeds exactly when the op applies to the text; the text becomes the applied text and the events are the op's edits in order; a failure carries the walk's error |
| CollaborativeStrings.CollaborativeString.ConsumeAndSubmit | realtime/java/src/main/java/com/goodow/realtime/CollaborativeString.java:115-116 | the op is consumed as `Consume` does and queued for sending exactly when it applies |
| CollaborativeStrings.CollaborativeString.InsertString | realtime/java/src/main/java/com/goodow/realtime/CollaborativeString.java:109-117 | null or empty text is an illegal argument and a position outside the text an index error, both changing nothing; otherwise the text is spliced in at the position, one insert event fired and one op submitted |
| CollaborativeStrings.CollaborativeString.Append | realtime/java/src/main/java/com/goodow/realtime/CollaborativeString.java:88-90 | `append(t)` is `insertString(length, t)`: the text ends with `t`, or an illegal argument for null or empty text |
| CollaborativeStrings.CollaborativeString.RemoveRange | realtime/java/src/main/java/com/goodow/realtime/CollaborativeString.java:149-157 | unless `0 <= start < end <= length` an index error changing nothing; otherwise `[start, end)` is taken out, one delete event with the removed text fired and one op submitted |
| CollaborativeStrings.CollaborativeString.ToInitialization | realtime/java/src/main/java/com/goodow/realtime/CollaborativeString.java:216-223 | null exactly for the empty text; otherwise an op that rebuilds the whole text from nothing |
| CollaborativeLists.CheckIndex | realtime/src/main/java/com/goodow/realtime/CollaborativeList.java:457-462 | passes exactly when `0 <= index` and `index < length`, or `index <= length` when the end bound is valid; otherwise an index error |
| CollaborativeLists.AddParent | realtime/src/main/java/com/goodow/realtime/CollaborativeList.java:471 | recording a joining value's reference keeps the document counting exactly the list's references, for this list and no other |
| CollaborativeLists.AddParents | realtime/src/main/java/com/goodow/realtime/CollaborativeList.java:404-406 | after `initialize`'s loop the document counts exactly the list's references for this list, and no other holder changes |
| CollaborativeLists.InsertionStep | realtime/src/main/java/com/goodow/realtime/CollaborativeList.java:467-472 | inserting each value at `index + i` builds the list with all values spliced in at `index`, in order |
| CollaborativeLists.RemovalStep | realtime/src/main/java/com/goodow/realtime/CollaborativeList.java:482-487 | removing at `index` while each value matches takes the whole run out; a mismatch shows the run was not there |
| CollaborativeLists.CollaborativeList.InitializeCreate | realtime/src/main/java/com/goodow/realtime/CollaborativeList.java:400-418 | the list starts as the initial values, or empty, with each element's reference recorded under this list and no other holder changed |
| CollaborativeLists.CollaborativeList.Length | realtime/src/main/java/com/goodow/realtime/CollaborativeList.java:234-236 | the number of elements |
| CollaborativeLists.CollaborativeList.Get | realtime/src/main/java/com/goodow/realtime/CollaborativeList.java:127-130 | the element at an index within the list, otherwise an index error |
| CollaborativeLists.CollaborativeList.InsertAndFireEvent | realtime/src/main/java/com/goodow/realtime/CollaborativeList.java:464-477 | the values are spliced in at the index in order, their references recorded, and one values-added event fired |
| CollaborativeLists.CollaborativeList.RemoveOne | realtime/src/main/java/com/goodow/realtime/CollaborativeList.java:482-487 | one step of the removal succeeds exactly when the element at the index is the expected value, and then takes it out |
| CollaborativeLists.CollaborativeList.RemoveAndFireEvent | realtime/src/main/java/com/goodow/realtime/CollaborativeList.java:479-493 | succeeds exactly when the values are the elements at the index; then they are taken out and one values-removed event fired; a mismatch is an assertion failure firing nothing |
| CollaborativeLists.CollaborativeList.ConsumeComponent | realtime/src/main/java/com/goodow/realtime/CollaborativeList.java:373-396 | one callback of the walk succeeds exactly when the walk's step does and leaves the list and cursor the step gives, firing the step's edit |
| CollaborativeLists.CollaborativeList.Consume | realtime/src/main/java/com/goodow/realtime/CollaborativeList.java:368-398 | succeeds exactly when the op applies to the list; the list becomes the applied list, the events are the op's edits in order and the references stay counted |
| CollaborativeLists.CollaborativeList.ConsumeAndSubmit | realtime/src/main/java/com/goodow/realtime/CollaborativeList.java:193-194 | the op is consumed as `Consume` does and queued exactly when it applies |
| CollaborativeLists.CollaborativeList.InsertAll | realtime/src/main/java/com/goodow/realtime/CollaborativeList.java:181-195 | a position outside the list is an index error; no values change nothing; a null array inserts one JSON null; otherwise the values are spliced in at the position with one event and one op |
| CollaborativeLists.CollaborativeList.Insert | realtime/src/main/java/com/goodow/realtime/CollaborativeList.java:170-172 | one value spliced in at a position within the list or at its end, otherwise an index error |
| CollaborativeLists.CollaborativeList.Push | realtime/src/main/java/com/goodow/realtime/CollaborativeList.java:244-247 | the value is appended, the new length returned, and one insert event at the old length fired |
| CollaborativeLists.CollaborativeList.RemoveRange | realtime/src/main/java/com/goodow/realtime/CollaborativeList.java:297-309 | unless `0 <= start < end <= length` an index error changing nothing; otherwise the range is taken out, one event fired with its values and one op submitted |
| CollaborativeLists.CollaborativeList.RemoveRangeAsWritten | realtime/src/main/java/com/goodow/realtime/CollaborativeList.java:297-309 | as written, any range not starting at 0 fails with an index error while gathering the values; a range from 0 removes as intended |
| CollaborativeLists.CollaborativeList.Remove | realtime/src/main/java/com/goodow/realtime/CollaborativeList.java:280-282 | the element at an index within the list is taken out with one delete event and one single-element delete submitted, otherwise an index error that changes nothing |
| CollaborativeLists.CollaborativeList.SetLength | realtime/src/main/java/com/goodow/realtime/CollaborativeList.java:360-366 | a length beyond the list is an index error; a shorter one keeps only the prefix, firing one delete event for the tail and submitting its removal; the current length changes nothing |
| CollaborativeLists.CollaborativeList.IndexOf | realtime/src/main/java/com/goodow/realtime/CollaborativeList.java:140-161 | the first index whose element passes the test, or -1 when none does or the value cannot be encoded |
| CollaborativeLists.CollaborativeList.LastIndexOf | realtime/src/main/java/com/goodow/realtime/CollaborativeList.java:205-226 | the last index whose element passes the test, or -1 when none does or the value cannot be encoded |
| CollaborativeLists.CollaborativeList.ToInitialization | realtime/src/main/java/com/goodow/realtime/CollaborativeList.java:420-428 | null exactly for the empty list; otherwise an op that rebuilds the whole list from nothing |
| CollaborativeMaps.Events | realtime/src/main/java/com/goodow/realtime/CollaborativeMap.java:200-213 | consuming an op fires exactly one value-changed event per key it meets |
| CollaborativeMaps.MapCountedAfterRemove | realtime/src/main/java/com/goodow/realtime/CollaborativeMap.java:305-306 | a key leaving the map with its value's reference taken out keeps the document counting exactly the map's references, and no other holder's record changes |
| CollaborativeMaps.MapCountedAfterAdd | realtime/src/main/java/com/goodow/realtime/CollaborativeMap.java:293-295 | a key joining the map with its value's reference recorded keeps the document counting exactly the map's references, and no other holder's record changes |
| CollaborativeMaps.MapCountedRecorded | realtime/src/main/java/com/goodow/realtime/CollaborativeMap.java:294 | a reference held in a counted map is recorded under the map, so removing it never trips the document's presence assertion |
| CollaborativeMaps.RemoveMapParent | realtime/src/main/java/com/goodow/realtime/CollaborativeMap.java:306 | taking a leaving value's reference out keeps the document counting the smaller map |
| CollaborativeMaps.AddMapParent | realtime/src/main/java/com/goodow/realtime/CollaborativeMap.java:295 | recording a joining value's reference keeps the document counting the larger map |
| CollaborativeMaps.AddMapParents | realtime/src/main/java/com/goodow/realtime/CollaborativeMap.java:215-222 | after `initialize`'s loop the document counts exactly the map's references for this map, and no other holder changes |
| CollaborativeMaps.PutPairs | realtime/src/main/java/com/goodow/realtime/CollaborativeMap.java:230-237 | the pairs fail an assertion exactly when some key is not a string; otherwise the keys are exactly those paired with a non-null encoding |
| CollaborativeMaps.InitialSnapshot | realtime/src/main/java/com/goodow/realtime/CollaborativeMap.java:224-240 | no arguments give the empty map, an odd number an argument error, and otherwise the pairs put in order |
| CollaborativeMaps.LastPairWins | realtime/src/main/java/com/goodow/realtime/CollaborativeMap.java:230-237 | a later pair with a non-null value overwrites any earlier value of its key |
| CollaborativeMaps.PairsSnapshot | realtime/src/main/java/com/goodow/realtime/CollaborativeMap.java:230-237 | the loop over the pairs computes exactly `PutPairs` |
| CollaborativeMaps.InitializeCreate | realtime/src/main/java/com/goodow/realtime/CollaborativeMap.java:224-240 | an odd argument count or a non-string key fails with the snapshot's error and records nothing; otherwise a fresh map holding the initial snapshot, with its references recorded and no other holder changed |
| CollaborativeMaps.CollaborativeMap.Initialize | realtime/src/main/java/com/goodow/realtime/CollaborativeMap.java:215-222 | the map takes the snapshot and its references are recorded with it as their parent |
| CollaborativeMaps.CollaborativeMap.CheckKey | realtime/src/main/java/com/goodow/realtime/CollaborativeMap.java:280-284 | passes exactly for a non-null key, otherwise an argument error |
| CollaborativeMaps.CollaborativeMap.Has | realtime/src/main/java/com/goodow/realtime/CollaborativeMap.java:109-112 | an argument error exactly for a null key, otherwise whether the key is mapped |
| CollaborativeMaps.CollaborativeMap.Get | realtime/src/main/java/com/goodow/realtime/CollaborativeMap.java:97-100 | an argument error exactly for a null key, otherwise the key's value when it is mapped and null when it is not |
| CollaborativeMaps.CollaborativeMap.Size | realtime/src/main/java/com/goodow/realtime/CollaborativeMap.java:180-182 | the number of keys, zero exactly for the empty map |
| CollaborativeMaps.CollaborativeMap.IsEmpty | realtime/src/main/java/com/goodow/realtime/CollaborativeMap.java:119-121 | empty exactly when the size is zero, that is when no key is mapped |
| CollaborativeMaps.CollaborativeMap.PutAndFireEvent | realtime/src/main/java/com/goodow/realtime/CollaborativeMap.java:286-297 | the key takes the new value, the references are swapped in the document, and one event carries the new and old values |
| CollaborativeMaps.CollaborativeMap.RemoveAndFireEvent | realtime/src/main/java/com/goodow/realtime/CollaborativeMap.java:299-308 | an unmapped key fails its assertion and changes nothing; otherwise the key is removed, its reference taken out and one event carries the old value |
| CollaborativeMaps.CollaborativeMap.Update | realtime/src/main/java/com/goodow/realtime/CollaborativeMap.java:203-211 | the update goes through exactly when the map accepts the change (a given old value is the current one, a removed key is mapped); the key is then removed or set and one event fired |
| CollaborativeMaps.CollaborativeMap.Consume | realtime/src/main/java/com/goodow/realtime/CollaborativeMap.java:199-213 | the op is consumed exactly when every change is accepted; the map is then the op applied to it, with one event per key in the order met |
| CollaborativeMaps.CollaborativeMap.ConsumeAndSubmit | realtime/src/main/java/com/goodow/realtime/CollaborativeMap.java:84-85 | the op is consumed as `Consume` does and queued exactly when it applies |
| CollaborativeMaps.CollaborativeMap.Remove | realtime/src/main/java/com/goodow/realtime/CollaborativeMap.java:77-87 | a null key is an argument error; an unmapped key returns null and submits nothing; otherwise the key is removed by one submitted op and its old value returned |
| CollaborativeMaps.CollaborativeMap.Set | realtime/src/main/java/com/goodow/realtime/CollaborativeMap.java:164-175 | a null key is an argument error; a null value for an unmapped key returns null and changes nothing; otherwise the key is set or removed by one submitted op and its old value returned |
| CollaborativeMaps.CollaborativeMap.ToInitialization | realtime/src/main/java/com/goodow/realtime/CollaborativeMap.java:242-252 | null exactly for the empty map; otherwise an op over exactly the map's keys that rebuilds the map from the empty one |
| CollaborativeMaps.AppliedEmpty | realtime/src/main/java/com/goodow/realtime/CollaborativeMap.java:199-213 | an op with no keys leaves the map as it is |
| CollaborativeMaps.AppliedSingle | realtime/src/main/java/com/goodow/realtime/CollaborativeMap.java:203-211 | an op of one key removes it for a null new value, otherwise sets it, and leaves the other keys alone |
| RealtimeDocuments.ChildOf | realtime/src/main/java/com/goodow/realtime/Document.java:156-162 | null and JSON null are null; a reference is exactly an array tagged with the reference type whose next slot is the child's id; anything else is a plain value |
| RealtimeDocuments.RefBagInsert | realtime/src/main/java/com/goodow/realtime/Document.java:163-169 | inserting a value into a list adds exactly its reference to the list's references |
| RealtimeDocuments.RefBagRemove | realtime/src/main/java/com/goodow/realtime/Document.java:170-176 | removing a value from a list takes exactly its reference out of the list's references |
| RealtimeDocuments.CountedAfterInsert | realtime/src/main/java/com/goodow/realtime/Document.java:163-169 | a value inserted into a held list with its reference recorded keeps the document counting exactly the list's references, and no other holder's record changes |
| RealtimeDocuments.CountedAfterRemove | realtime/src/main/java/com/goodow/realtime/Document.java:170-176 | a value removed from a held list with its reference taken out keeps the document counting exactly the list's references, and no other holder's record changes |
| RealtimeDocuments.CountedRecorded | realtime/src/main/java/com/goodow/realtime/Document.java:171 | a reference in a counted list is recorded under its holder, so the removal assertion never fails |
| RealtimeDocuments.RemoveFirst | realtime/src/main/java/com/goodow/realtime/Document.java:172 | `list.remove(x)` takes one occurrence of a present element out and leaves a list without it unchanged |
| RealtimeDocuments.RemoveFirstDistinct | realtime/src/main/java/com/goodow/realtime/Document.java:149-214 | taking a handler out of a list without repeats leaves one without repeats and without it, keeping every other handler |
| RealtimeDocuments.IsLocalSession | realtime/src/main/java/com/goodow/realtime/Document.java:196-198 | local exactly when the document has no session id or it equals the given one |
| RealtimeDocuments.RelinkedBags | realtime/src/main/java/com/goodow/realtime/Document.java:163-176 | relinking fails exactly when a removed parent is not recorded; otherwise it changes the child's multiset of parents by one occurrence of the parent, keeps every other child's list, and leaves no empty list |
| RealtimeDocuments.PutHandlersAt | realtime/src/main/java/com/goodow/realtime/Document.java:235-259 | storing a handler list for one key and type changes what is registered there and nowhere else |
| RealtimeDocuments.Document.constructor | realtime/src/main/java/com/goodow/realtime/Document.java:68-70 | a new document has its session id, no handlers and no parents |
| RealtimeDocuments.Document.IsLocal | realtime/src/main/java/com/goodow/realtime/Document.java:196-198 | local exactly when the document has no session id or it equals the given one |
| RealtimeDocuments.Document.AddOrRemoveParent | realtime/src/main/java/com/goodow/realtime/Document.java:156-178 | nulls and non-references change nothing; adding records one more occurrence of the parent; removing fails exactly when the parent is not recorded and otherwise takes one occurrence out, dropping an emptied entry |
| RealtimeDocuments.Document.GetParents | realtime/src/main/java/com/goodow/realtime/Document.java:261-268 | null exactly when the object has no entry; otherwise a non-empty array of exactly its distinct parents |
| RealtimeDocuments.Document.AddEventListener | realtime/src/main/java/com/goodow/realtime/Document.java:143-154 | a null key, type or handler is refused with `NullPointer`, changing nothing; otherwise the handler is registered for the key and type, added only when it was not already there |
| RealtimeDocuments.Document.RemoveEventListener | realtime/src/main/java/com/goodow/realtime/Document.java:200-222 | the handler is no longer registered for the key and type, every other handler there and elsewhere stays, and the clean-up, keyed by the containers themselves, removes no entry |
| JreJsonArrays.OrNull | realtime/src/main/java/elemental/json/impl/JreJsonArray.java:115-119 | a Java null is stored as JSON null, any other value as itself |
| JreJsonArrays.InsertAt | realtime/src/main/java/elemental/json/impl/JreJsonArray.java:115-120 | the value is at the index, earlier elements stay and later ones move one place on |
| JreJsonArrays.RemoveAt | realtime/src/main/java/elemental/json/impl/JreJsonArray.java:143-145 | the element at the index is gone, earlier elements stay and later ones move one place back |
| JreJsonArrays.RemoveUndoesInsert | realtime/src/main/java/elemental/json/impl/JreJsonArray.java:115-145 | removing what was just inserted gives back the array |
| JreJsonArrays.InsertUndoesRemove | realtime/src/main/java/elemental/json/impl/JreJsonArray.java:115-145 | inserting back what was just removed gives back the array |
| JreJsonArrays.JoinedFromFront | realtime/src/main/java/elemental/json/impl/JreJsonArray.java:59-68 | joining is the first string, then `", "` and the rest joined |
| JreJsonArrays.JreJsonArray.constructor | realtime/src/main/java/elemental/json/impl/JreJsonArray.java:37-39 | a new array is empty |
| JreJsonArrays.JreJsonArray.Length | realtime/src/main/java/elemental/json/impl/JreJsonArray.java:138-140 | the number of stored values |
| JreJsonArrays.JreJsonArray.Get | realtime/src/main/java/elemental/json/impl/JreJsonArray.java:71-73 | the element at an index within the array, otherwise an index error |
| JreJsonArrays.JreJsonArray.Insert | realtime/src/main/java/elemental/json/impl/JreJsonArray.java:115-120 | within `0..length` the value, or JSON null for null, is inserted at the index; outside it an index error changing nothing |
| JreJsonArrays.JreJsonArray.Set | realtime/src/main/java/elemental/json/impl/JreJsonArray.java:158-167 | at the length it appends, within the array it overwrites in place with the length kept, and elsewhere an index error changing nothing |
| JreJsonArrays.JreJsonArray.Remove | realtime/src/main/java/elemental/json/impl/JreJsonArray.java:143-145 | an element within the array is removed, otherwise an index error changing nothing |
| JreJsonArrays.JreJsonArray.AsString | realtime/src/main/java/elemental/json/impl/JreJsonArray.java:59-68 | the elements' own strings joined with `", "` |

## Left out

### Weaker contracts

- JsonModelAdapters.JsonSlob.Apply: a refused delta leaves the slob's old value. In the source, the edits applied before the failing one stay in the slob (JsonModelAdapter.java:53-61), and the model does not compute that partial state.
- MutationLogs.Appender.AppendAll: a rejected delta leaves the staged state as it was before that delta. The source's state can hold the partial edits of the delta that failed (MutationLog.java:109-125, 190-196). The same holds for `Append` and `ApplyAndStage`.
- CollaborativeStrings.CollaborativeString.Consume: on a walk that fails, the contract names the error but not the partly edited text that the source leaves. The same holds for `ConsumeAndSubmit`.
- CollaborativeLists.CollaborativeList.Consume: on a walk that fails, the contract names the error but not the partly edited list. The same holds for `ConsumeAndSubmit`.
- CollaborativeMaps.CollaborativeMap.Consume: on a refused op, the contract names the error but not the keys already changed before the refused one. The same holds for `ConsumeAndSubmit`.
- SlobMessageRouters.SlobMessageRouter.ConnectListener: other memcache writers are not modelled.
  - A lost add-if-absent is the oracle `addSucceeds`.
  - A retry looks at the same table again, whereas the source re-reads the table.
- Contexts.Context.ConsumeMembers: when an op is refused both for a missing key and for another key, the contract allows either error. The source raises whichever refusal it meets first in its hash map's order. The function `Documents.ObjectApply` reports `Runtime` for such an op.
- Json.AsNumber: an array of two or more elements gives NaN in the source. Other value kinds are converted by classes outside this model. In both cases the model gives no number, and the op is refused.
- NumberOps.ParseOp: refuses the values for which `asNumber` gives NaN or would use a conversion outside this model, as `Json.AsNumber` does. The source builds an op holding that number.
- JsonModels.InnerConverges: convergence of the list transform is proved only under the hypothesis that the pairwise transform converges (`Convergent`). The JSON pairwise transform does not meet it: two number ops at one path do not converge (`NumberOps.TransformDiverges`). The lemma shows that the loop adds no divergence of its own.
- JsonModels.TransformConverges: proved under the same hypothesis `Convergent`, which the JSON pairwise transform does not meet for number ops. It lifts pairwise convergence to lists of ops.
- JsonHandlerRegistries.FullPathInjective: holds only for keys without `/`. Keys that contain the separator can share a full path, which the source does not guard against.

### Representation

- Numbers are mathematical integers, not Java doubles. NaN, fractions, rounding and the `(int)` casts of double versions (ReceiveOpChannelImpl.java:148, 155) are not modelled. `NumberOp` adds integers.
- Decimal.ParseInt: reads ASCII digits only. Java's `Integer.parseInt` also accepts other Unicode decimal digits.
- String lengths count characters. Java counts UTF-16 code units, so text outside the Basic Multilingual Plane is measured differently.
- Wire formats are modelled as JSON values, not text. Keys, paths and strings are printed without escaping (MapOp.java:222-230, JsonUtil.java:37-41, JsonOp.java:140). A text round trip is therefore not modelled, and it would fail for keys containing `"` or `/`.
- Equality of `toJson` texts is modelled as equality of values, so the key order of printed objects is ignored. `JsonSerializer.jsonEqual` is taken as null-safe equality of encodings.
- The private helpers `insertAndFireEvent`, `deleteAndFireEvent` and `removeAndFireEvent` take `nat` indices. Their callers check the bounds first.
- Paths with empty steps (`a.`, `a..b`) follow Java's `split` in `Contexts`. The get-after-set laws are stated only for paths printed from steps.

### Code outside the model

- `ListOp`, `ListNormalizer`, `ListOpCollector` and `ListTarget` are a parameter (`ListAlgebra`). The list ops' own compose and transform, and their errors, are the parameter's. The layout of a single-edit list op and its `isNoOp` (every component a retain) are assumptions.
- The realtime collaborative map applies `com.goodow.realtime.op.map.MapOp` (CollaborativeMap.java:18), which is not part of this model. `CollaborativeMaps` uses the map-op algebra of `MapOps` in its place: the same components, each a key's old and new value.
- Values held by collaborative objects are taken to be encoded by `JsonSerializer`, which is outside this model. Every value that is not null is then an array tagged with its kind. `RealtimeDocuments.ChildOf` reads any other value as a plain value, and `AddOrRemoveParent` leaves it alone. The source casts such a value to an array and reads its first number (Document.java:160-161), so it would throw.
- No `JBoolean` wrapper exists in the source, so consuming an op on a boolean is `Unsupported`.
- The JSON text library is the `Codec` parameter, and the random source of `RandomBase64Generator` is a stream parameter.
- `JsonSerializer.jsonToObj` and `objToJson` are not modelled. Collaborative objects hold and return encoded values. `indexOf`/`lastIndexOf` take their test, the comparator's verdict or equality with the value's encoding, as a parameter.
- `CollaborativeObject` and the realtime `Model` are not modelled.
  - The session and user of an edit are parameters.
  - `consumeAndSubmit` is modelled as consume followed by queueing on `submitted`.
  - The `setIndexReferenceIndex` calls after each string or list edit are not modelled. `IndexReference.setIndex` is modelled on its own.
- Event dispatch is not modelled: `fireEvent`, bubbling to parents, `ObjectChangedEvent` and the listener add/remove methods of collaborative objects. The events an object fires are recorded in order as `fired`.

### Operations not modelled

- CollaborativeString: `setText`, whose text diff is in native code, plus `getText`, `registerReference` and `toString`.
- CollaborativeList: `set`, `replaceRange`, `removeValue`, `pushAll`, `clear`, `asArray`, `registerReference` and `toString`.
- CollaborativeMap: `clear`, `items`, `values`, `keys` and `toString`.
- CollaborativeMap `putAndFireEvent`'s assert that the new value is not a freshly created null. It compares identity, so it always holds.
- IndexReference: `consume`, which always throws `UnsupportedOperationException`, plus `initialize`'s registration with the model and `toString`.
- JsonHandlerRegistry: the static `ROOT`. A handler's `toString` is the `describe` function the registry is built with.
- ChannelRegistry: `cleanup`, which unregisters keys while iterating over the live key array, plus `getChannel`, `getRpc` and `getSessionId`, which return services.
- ReceiveOpChannelImpl: `disconnect`, registration with the channel demuxer, the scheduler's delay and the logging callbacks `onConnectionError`/`onFatalError`.
- Storage (datastore, memcache):
  - Queries, entities, keys and transactions.
  - `OversizedPropertyMover`, `putMetadata`, `getDeltaEntityIterator` and `forwardHistory`/`reverseHistory` in MutationLog. The stored log is a value `Log`, and a put always succeeds, so datastore put failures are not modelled.
- LocalMutationProcessor:
  - `runPreCommit`/`schedulePostCommit`.
  - The batching of several updates into one transaction, and retries.
  - The logging, including the warning for more than `MAX_TAIL_SIZE` concurrent ops.
- JsonLoader:
  - `create`'s transaction and its retry on an id collision.
  - `load`, `loadStaticAtVersion` and `findObject`. Whether an object exists is a parameter, and `LoadOrCreate` returns the deltas the object would be created with.
- SlobMessageRouter: memcache expiry and the channel service. `createChannel` is a parameter, and what is sent goes to an outbox.
- Document `removeEventListener` is modelled as written. Its clean-up removes entries keyed by the emptied containers themselves, so nothing is removed and the emptied containers stay.

## Findings

| source | as written | input that shows it | evidently intended | confidence | as-written member | corrected member |
|---|---|---|---|---|---|---|
| model/src/main/java/com/goodow/wind/model/json/ArrayOp.java:145-150 | an insert after the child's element still adds to the child's shift | `[retain 1, insert [null]]` on `[7]`: the element 7 stays at index 0, yet the child is moved to index 1 | only inserts before the element shift the child | not executed | ArrayOps.InsertAfterChildMiscounted | ArrayOps.RetainedElementTracked |
| model/src/main/java/com/goodow/wind/model/json/ArrayOp.java:171-172 | the moved child path is the child's parent path plus the shifted index | a child op at `[0].x` against `[insert [null], retain 1]` on the root array moves to `[0][1]` | the array's path, then the shifted index, then the child's remaining steps (`[1].x`) | not executed | ArrayOps.ChildPathAsWrittenMisplaced | ArrayOps.ChildPathFixedPlaced |
| realtime/src/main/java/com/goodow/realtime/CollaborativeList.java:303-306 | values are gathered with `array.set(i, …)` from `i = startIndex` into an empty array | `removeRange(1, 2)` on a list of two elements throws an index error | gather at `i - startIndex`, so that every valid range is removed | not executed | CollaborativeLists.CollaborativeList.RemoveRangeAsWritten | CollaborativeLists.CollaborativeList.RemoveRange |
| model/src/main/java/com/goodow/wind/model/json/JsonModel.java:54-62 | after two ops cancel, the next op is composed with the op below them, whatever its path | `q: +1, p: +1, p: -1, p: +5` composes to `q: +6` | the next op starts a new run at its own path: `q: +1, p: +5` | not executed | JsonModels.ComposeAsWrittenMerges | JsonModels.ComposeCorrectedKeeps |
| model/src/main/java/com/goodow/wind/model/json/JsonModel.java:100-108 | when the server op becomes a no-op, the loop moves on and drops the client op's transformed form | server `a: "string" -> "value1"` and client `a: "string" -> "value2"` on `{"a":"string"}`: the untransformed client op is refused after the server op | keep the transformed client op (`a: "value1" -> "value2"`), so that both sides reach `{"a":"value2"}` | not executed | JsonModels.TransformAsWrittenDiverges | JsonModels.TransformCorrectedConverges |
| server/src/main/java/com/goodow/wind/server/model/JsonModelAdapter.java:108-120 | a payload is wrapped as a JSON string, not parsed, before `createOp` casts it to an array | any non-empty list of client or server deltas ends in a `ClassCastException` | parse the payload, then build the op from the parsed array | not executed | JsonModelAdapters.TransformAsWrittenFails | JsonModelAdapters.TransformFixedReadsOps |
| server/src/main/java/com/goodow/wind/server/model/JsonLoader.java:159-163 | the initial op replaces `null`, which its text prints as a JSON null, and the slob asserts that the old value is Java null | creating an object of any type other than NULL: its first delta is refused | the first delta of a new object builds its initial value | not executed | JsonLoaders.InitialDeltaAsWrittenRefused | JsonLoaders.InitialDeltaCreates |
| server/src/main/java/com/google/walkaround/slob/server/MutationLog.java:598-606 | `getVersion` returns the version of the newest delta's id, the version that delta starts from | a log holding one delta reads as version 0, as if there were no slob | the version reached after the newest delta, the one `reconstruct(null)` reaches | not executed | MutationLogs.GetVersionAsWrittenLags | MutationLogs.GetVersionReconstructs |
| server/src/main/java/com/google/walkaround/slob/server/LocalMutationProcessor.java:246-251 | when the appender refuses a change, the changes it staged before it are committed, while the delta cache gets none of them | changes `[ok, bad]` on a slob that refuses `bad`: `ok` is staged and committed, but not cached | the cache receives exactly the changes the appender staged | not executed | LocalMutationProcessors.AsWrittenLosesStagedDelta | LocalMutationProcessors.CacheAfterStaysInSync |

The rest of the model uses the corrected definitions:

- `CollaborativeList.Remove` and `SetLength` call the corrected `RemoveRange`.
- `LocalMutationProcessors.Tx` keeps the cache with `CacheAfter`.
- The slob model of `JsonModelAdapters` reads the initial op as corrected.
- `JsonOps.Transform` uses the corrected child path.

Some members model the code as written:

- `ArrayOps.TransformWithChild` and the method `JsonModels.Compose` are fixed to the code as written.
- `JsonModels.Transform` takes a flag that selects the reading.
- `JsonModelAdapters.Transform` takes two flags, one for how payloads are read and one for the model's transform.

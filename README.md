# Merge server model

A Dafny model of the map-merging server of a two-client ORB-SLAM2 setup
(`src/Server.cc`). The server holds the maps of two registered clients:
sequence A is `clients[0]` and sequence B is `clients[1]`. It copies both
maps into one global map in three passes per sequence:

1. **Keyframe pass.** Each client keyframe is copied, its id shifted by an
   offset and tagged with its sequence. The copy is recorded in the
   sequence's time index (timestamp to keyframe) and registered in the
   keyframe dictionary (client pointer to global pointer).
2. **Map-point pass.** The slots of each keyframe are mirrored. A client map
   point met for the first time becomes one new global map point; every
   later sighting adds an observation to that same point.
3. **Connectivity pass.** The covisibility weights, the ordered connections
   and weights, the spanning-tree parent and children, and the loop edges are
   copied, each pointer translated through the keyframe dictionary.

After both sequences are merged, the marker correlator links each
marker-carrying keyframe to a keyframe of the other sequence close to it in
time. The constructor's choice of vocabulary loader (text or binary, by the
".txt" suffix) and the client registry are modelled too.

Layout:

- `graph.dfy` (module `Graph`): the keyframe and map-point records and the
  translation dictionaries.
  - Pointers are arena indices: `Ref` for global nodes, `ClientRef` for
    client nodes. `Null`/`ClientNull` is `nullptr`.
  - `operator[]` on a dictionary is `Translated` plus `Touch`/`Touched`:
    an unregistered key yields `nullptr` and gains a null entry.
- `vocabulary.dfy` (module `Vocabulary`): the suffix test, with
  `std::string::find` and the unsigned `size_t` subtraction written out.
- `timeindex.dfy` (module `TimeIndex`): the per-sequence time indexes,
  `lower_bound`/`upper_bound`, the candidate choice and the correlator's
  visit of one keyframe.
- `consolidation.dfy` (module `Consolidation`), as functions of one
  keyframe's slots, and of all the slots of a pass in keyframe order:
  - which client points get a new global point;
  - which observations each global point gains.
- `pointtables.dfy` (module `PointTables`): the map-point tables, a
  slot-by-slot account of the map-point pass over one keyframe (`Mirrored`)
  and the account of a whole pass over a client's keyframes
  (`MirroredPass`), built keyframe by keyframe from the first.
- `connections.dfy` (module `Connections`): what the connectivity pass gives
  one keyframe, as the function `Connected`.
- `server.dfy` (module `MergeServer`): the class `Server`, whose methods
  follow the source's members. `Run` is split into one method per loop and
  a few methods grouping them.

The model follows the code where it differs from what the names suggest:

- The correlator's two candidates are `lower_bound(t)` and `upper_bound(t)`.
  Both lie at or after `t`, so a keyframe is never linked to an earlier
  entry, however close. It is linked to the earliest entry at or after `t`,
  and only when that entry is less than 0.1 later (`MarkerMatch`, and the
  two `Example` lemmas).
- Dictionary lookups never fail. A pointer that is not registered translates
  to `nullptr` and leaves a null entry behind.

## Model

| member | source | states |
|---|---|---|
| Vocabulary.SizeSub | src/Server.cc:27 | `size() - 4` is unsigned: it is the plain difference when the path is long enough, and wraps to a position past the end of any string otherwise |
| Vocabulary.Find | src/Server.cc:27 | `find(pattern, pos)` returns the first index at or after `pos` where the pattern occurs, and `npos` exactly when there is none |
| Vocabulary.UsesTextLoader | src/Server.cc:25-30 | the text loader is chosen exactly when the path ends in ".txt"; a path shorter than four characters always goes to the binary loader |
| MergeServer.Server.constructor | src/Server.cc:16-46 | the server starts with no clients, an empty global map and empty dictionaries; the vocabulary format is the suffix test's choice |
| MergeServer.Server.RegisterClient | src/Server.cc:269-274 | the client is appended to the registry and nothing else changes |
| Graph.ArenaRefsSize | src/Server.cc:97 | the global map holds one keyframe per keyframe created, so `GetAllKeyFrames().size()` is the number of keyframes created |
| Graph.Resize | src/Server.cc:152 | `resize(n)` leaves `n` slots: the old ones kept, the added ones `nullptr` |
| Graph.TouchedMeaning | src/Server.cc:185 | looking up keys with `operator[]` adds exactly those keys, each unregistered one as a null entry, and changes no translation |
| Graph.TranslationStable | src/Server.cc:63-64 | null entries never change a translation; a dictionary seeded with null to null keeps translating `nullptr` to `nullptr` |
| Graph.TranslateSeqStable | src/Server.cc:193-194 | null entries leave the translation of a sequence of pointers unchanged |
| Graph.TranslateSetStable | src/Server.cc:208-216 | null entries leave the translation of a set of pointers unchanged |
| Graph.TranslateSetMeaning | src/Server.cc:208-216 | the translated set holds the translation of every source pointer and nothing else |
| Graph.NullsKeepShape | src/Server.cc:185 | null entries keep every value of the dictionary in range and keep distinct keys on distinct keyframes |
| Graph.TranslateSeqKept | src/Server.cc:163 | registrations that are kept translate a sequence of registered pointers as before |
| TimeIndex.LowerBound | src/Server.cc:234 | `lower_bound(t)` is the least key not less than `t`, or `end()` when every key is below `t` |
| TimeIndex.UpperBound | src/Server.cc:235 | `upper_bound(t)` is the least key greater than `t`, or `end()` when no key is greater |
| TimeIndex.FirstAfterExists | src/Server.cc:234-240 | a finite index with a key after `t` has a least such key, so both bounds are well defined |
| TimeIndex.MarkerMatch | src/Server.cc:243-264 | a link is made exactly when the index has a key in [t, t + 0.1); it then names an indexed keyframe, the earliest at or after `t` |
| TimeIndex.CorrelatedMeaning | src/Server.cc:222-264 | the visit changes only the marker link. It links exactly when the keyframe carries a marker and the other sequence has an entry in [t, t + 0.1). The link then names a keyframe of the other sequence, the earliest at or after `t`. Otherwise the keyframe is unchanged |
| TimeIndex.CorrelatedLinks | src/Server.cc:220-267 | after the visits, each keyframe holds the link the correlator makes for it, or the link it held before |
| TimeIndex.MarkerMatchStable | src/Server.cc:245-248 | the lookup reads only timestamps, so links written to other keyframes do not change its answer |
| TimeIndex.NewLinkStable | src/Server.cc:221-222 | the link a keyframe receives does not depend on the order in which keyframes are visited |
| TimeIndex.ExampleLinksLaterEntry | src/Server.cc:234-263 | a marker at 1.00 facing entries 0.95 and 1.08 is linked to 1.08, not to the nearer 0.95 |
| TimeIndex.ExampleStaysUnlinked | src/Server.cc:261-264 | a marker at 1.00 facing entries 0.80 and 1.15 stays unlinked |
| TimeIndex.IndexAfterKeys | src/Server.cc:139-143 | after pass 1 the index holds its old keys plus the timestamp of every recorded keyframe, and no other key |
| TimeIndex.IndexAfterLastWriter | src/Server.cc:139-143 | a timestamp is owned by the last keyframe recorded with it: a duplicate timestamp overwrites |
| TimeIndex.IndexAfterUntouched | src/Server.cc:139-143 | an entry whose timestamp no recorded keyframe carries is left as it was |
| TimeIndex.TimeIndexesExtended | src/Server.cc:139-143 | recording a new keyframe in its own sequence's index keeps both indexes pointing to keyframes with their key's timestamp and their index's sequence |
| TimeIndex.TimeIndexesKept | src/Server.cc:150-218 | passes that change neither timestamps nor sequences keep both indexes valid |
| MergeServer.Server.InsertNewKeyFrame | src/Server.cc:134-148 | exactly one keyframe is added to the map: the copy, with id shifted by `offset` and tagged `sequence`. Only its own sequence's index changes, at its timestamp. The source pointer is registered to it |
| MergeServer.Server.KeyFramePass | src/Server.cc:82-85 | pass 1 appends the migrated keyframes in order and registers each as its own new keyframe (lines 98-101 for sequence B). The sequence's index ends as recorded in order, last writer winning |
| MergeServer.RegistrationsMeaning | src/Server.cc:147 | after pass 1, keyframe `j` of the client is registered as global keyframe `base + j`, and every other entry is kept |
| Consolidation.SightingsMeaning | src/Server.cc:155-174 | a client point held by k slots of the keyframe gains exactly k observations, one per slot holding it, each naming this keyframe |
| Consolidation.UnseenHasNoSightings | src/Server.cc:155-174 | a point no slot holds gains no observation |
| Consolidation.NewKeysMeaning | src/Server.cc:156-163 | the points the pass creates are the unregistered client points the slots hold, each exactly once |
| PointTables.MirrorStart | src/Server.cc:150-154 | before the first slot nothing has been mirrored |
| PointTables.CreateKeepsTables | src/Server.cc:156-163 | creating a point keeps the tables consistent: the map holds every created point and distinct client points have distinct global points |
| PointTables.CreateKeys | src/Server.cc:156-163 | a first sighting creates exactly one registration, for this client point, and keeps the others |
| PointTables.CreateObservations | src/Server.cc:158-163 | the new point copies its client point's position and descriptor and holds the one observation (keyframe, slot) |
| PointTables.ObserveKeepsTables | src/Server.cc:164-171 | a later sighting keeps the tables consistent |
| PointTables.ObserveKeys | src/Server.cc:164-171 | a later sighting creates no point and changes no registration |
| PointTables.ObservedIsOrigin | src/Server.cc:166-168 | the point a later sighting observes is the one created for this client point |
| PointTables.ObserveOld | src/Server.cc:166-169 | a later sighting adds the observation (keyframe, slot) to that same global point |
| PointTables.ObserveNew | src/Server.cc:166-169 | points created earlier in the pass keep exactly their sightings |
| PointTables.MirrorSlot | src/Server.cc:155-174 | each slot keeps the tables consistent, registers its client point without changing any registration, and extends the account of the pass |
| PointTables.MirroredRegisters | src/Server.cc:150-176 | after the last slot every slot's client point is registered, and no earlier registration changed |
| PointTables.NullSlotsIgnored | src/Server.cc:156-173 | with null pre-registered as null, a null slot creates no point and yields a null global slot; one point is created per new non-null client point |
| MergeServer.Server.FindOrCreatePoint | src/Server.cc:156-171 | the slot's client point ends up registered, and the state is one step of the pass: create on the first sighting, observe afterwards |
| MergeServer.Server.MirrorStep | src/Server.cc:155-174 | one turn of the slot loop extends the account of the pass, and sets the slot to its point's translation |
| MergeServer.Server.MirrorSlots | src/Server.cc:154-175 | the slots are mirrored as the account states, and the record's slots become the translations of the source's slots |
| MergeServer.Server.CopyKeyFrameMappoints | src/Server.cc:150-176 | the global keyframe ends with the source's number of slots, each the translation of the source slot. Map points are consolidated as the account states. No other keyframe changes |
| Consolidation.PassSightingsMeaning | src/Server.cc:87-90 | over a whole pass, a client point held by k slots of the client's keyframes gains exactly k observations, each naming a keyframe's global keyframe and a slot of it holding the point, and every such slot is named |
| Consolidation.PassSightingsCount | src/Server.cc:87-90 | over a whole pass, the observations a client point gains number the slots holding it |
| Consolidation.PassSightingsSound | src/Server.cc:87-90 | every observation gained over a pass names a keyframe of the pass and a slot of it holding the point |
| Consolidation.PassSightingsComplete | src/Server.cc:87-90 | every slot of the pass holding a client point is among that point's observations |
| Consolidation.PassUnseen | src/Server.cc:87-90 | a client point no keyframe of the pass holds gains no observation |
| Consolidation.NewKeysAppend | src/Server.cc:156-163 | the points created over two stretches of slots are those of the first, then those of the second that neither the dictionary nor the first stretch held |
| PointTables.MirroredPassStart | src/Server.cc:87 | before the first keyframe of pass 2 nothing has been mirrored |
| PointTables.MirroredPassStep | src/Server.cc:87-90 | mirroring one more keyframe after the earlier ones extends the account of the pass by that keyframe |
| PointTables.MirroredPassKeys | src/Server.cc:87-90 | after another keyframe, the created points are those of the earlier keyframes followed by the new ones of this keyframe; registrations are kept, and the registered keys are the old ones plus every slot seen |
| PointTables.MirroredPassOld | src/Server.cc:87-90 | a point that existed before the pass gains, keyframe by keyframe, exactly its sightings |
| PointTables.MirroredPassNew | src/Server.cc:87-90 | every point the pass created copies its client point, holds exactly its sightings over the pass and refers to the keyframe of the first |
| PointTables.CreatedEarlierKept | src/Server.cc:164-171 | a point created for an earlier keyframe gains this keyframe's sightings and nothing else |
| PointTables.CreatedNow | src/Server.cc:156-163 | a point created while mirroring a keyframe refers to that keyframe, the first that holds it, and holds its sightings there |
| PointTables.PassConsolidates | src/Server.cc:87-90 | after a pass, each non-null client point the pass met has exactly one global point, new exactly when the point was not registered before; that point gained one observation per slot holding the client point, each naming its keyframe and slot, and nothing else |
| MergeServer.Server.MapPointStep | src/Server.cc:87-90 | one turn of pass 2 mirrors keyframe `j` into its registered global keyframe, extends the account of the pass by that keyframe, and keeps the earlier keyframes translated |
| MergeServer.Server.MapPointPass | src/Server.cc:87-90 | after pass 2 each migrated keyframe's slots are the translations of its client keyframe's slots, all registered, and the map points are exactly as the account of the whole pass states. No other keyframe changes and earlier registrations stay (lines 103-106 for B) |
| Connections.EnumerationExists | src/Server.cc:183 | every weight map has a visiting order that lists each key once |
| Connections.WeightsAfterKeys | src/Server.cc:183-189 | the copied weights sit under exactly the translations of the copied keys, besides the old ones |
| Connections.LastWriterWins | src/Server.cc:183-189 | when two keys translate to the same global key, the pair visited last wins |
| Connections.UntouchedWeightKept | src/Server.cc:183-189 | a weight no copied pair translates to is left as it was |
| Connections.WeightsExact | src/Server.cc:183-189 | when translation keeps the keys apart, each source pair (k, w) yields the weight w under the translation of k |
| Connections.ConnectedMeaning | src/Server.cc:191-216 | ordered connections and weights are appended in source order, with source lengths. The parent is replaced only when the source has one. Children and loop edges gain exactly the translations. Nothing else changes |
| Connections.WeightsAfterStable | src/Server.cc:185-188 | null entries added meanwhile leave the copied weights unchanged |
| Connections.ConnectedStable | src/Server.cc:178-218 | null entries added by other keyframes' lookups do not change what is copied for this one |
| Connections.ConnectionsLookUpReferenced | src/Server.cc:183-216 | the lookups of the pass touch exactly the pointers the keyframe references |
| Connections.RegisteredLinksNonNull | src/Server.cc:178-218 | when every referenced pointer is registered, no lookup adds an entry, no copied link is `nullptr`, and a parent exists exactly when the source has one |
| MergeServer.Server.CopyWeights | src/Server.cc:183-189 | the weight loop writes each pair, in visiting order, under its key's translation, and touches exactly the visited keys |
| MergeServer.Server.AppendTranslated | src/Server.cc:191-195 | the translations of the ordered connections are appended in order |
| MergeServer.Server.InsertTranslated | src/Server.cc:208-217 | the translations of the children (or loop edges) are inserted, and exactly those keys are touched |
| MergeServer.Server.ConnectKeyFrame | src/Server.cc:180-217 | the record receives the source's connectivity as it is translated on entry, and the dictionary gains the touched keys |
| MergeServer.Server.CopyKeyFrameConnections | src/Server.cc:178-218 | only the keyframe's own global keyframe changes; it receives the translated connectivity; the dictionary gains a null entry for each pointer it lacked |
| MergeServer.ConnectedThroughMeaning | src/Server.cc:92-95 | after `j` turns of pass 3 the first `j` keyframes carry their copied links and every other keyframe is as it was |
| MergeServer.ConnectionStepDictionary | src/Server.cc:92-95 | pass 3's dictionary after keyframe `j` has touched the pointers of the first `j + 1` keyframes, and pass 1's registrations stay |
| MergeServer.Server.ConnectionStep | src/Server.cc:92-95 | one turn of pass 3 copies keyframe `j`'s links onto global keyframe `base + j` |
| MergeServer.Server.ConnectionPass | src/Server.cc:92-95 | after pass 3 each migrated keyframe carries its client keyframe's connectivity, translated as the dictionary stood when the pass began. The dictionary gains a null entry for each referenced pointer it lacked. No other keyframe changes (lines 108-111 for B) |
| MergeServer.MergedKeyFrameMeaning | src/Server.cc:134-218 | the merged keyframe keeps its migrated identity and its translated slots, and has no marker link. With its links registered, no copied link is `nullptr` and it has a parent exactly when its client keyframe has one |
| MergeServer.ClosedRegistered | src/Server.cc:82-95 | because a sequence's pass 1 precedes its pass 3, every same-sequence link is registered to a keyframe when pass 3 runs |
| MergeServer.PassesMergeRange | src/Server.cc:82-95 | after the three passes every migrated keyframe is its merged keyframe: migrated identity, translated slots, connectivity translated through the dictionary pass 1 left, and no marker link |
| MergeServer.PassesMerge | src/Server.cc:82-95 | the three passes over one client merge it: registrations, each keyframe equal to its merged keyframe (identity with the id offset and tag, translated and registered slots, connectivity translated through the dictionary pass 3 read), and non-null links when the client's links stay within its own keyframes |
| MergeServer.LinksCopiedKept | src/Server.cc:263 | changing only marker links keeps the copied links non-null |
| MergeServer.MergedKept | src/Server.cc:97-115 | a merged client stays merged, every keyframe still its merged keyframe, while later steps change only marker links, keep its registrations and only add map-point registrations |
| MergeServer.MergesRelinked | src/Server.cc:113-115 | the correlator, which changes only marker links, leaves both merges intact |
| MergeServer.Server.CopyPasses | src/Server.cc:87-95 | passes 2 and 3 together complete the merge of the keyframes pass 1 appended: each is its merged keyframe, its links translated through the dictionary on entry. Earlier keyframes are unchanged, the dictionary ends with every linked pointer touched, and the map points are as the account of pass 2 states |
| MergeServer.Server.MergeSequence | src/Server.cc:82-95 | the three passes over one client append its keyframes after the existing ones, each its merged keyframe (id offset, sequence tag, translated slots, links translated through the dictionary pass 1 left). The dictionary is exactly pass 1's registrations with every linked pointer touched. The map points are as the account of pass 2 states. Only that sequence's time index changes |
| MergeServer.Server.MergeSecond | src/Server.cc:97-111 | sequence B is merged with offset equal to the number of global keyframes after sequence A. Every earlier keyframe is unchanged and sequence A's merge survives. The dictionary and the map points are as B's passes leave them |
| MergeServer.Server.MergeFirst | src/Server.cc:63-95 | with `nullptr` seeded in both dictionaries, A is merged with offset 0; the dictionary and the map points are as A's passes leave them from the seeded state, and only A's time index changes |
| MergeServer.Server.MergeBoth | src/Server.cc:63-111 | A is merged with offset 0 and then B with offset equal to the keyframe count after A. Both merges hold at the end, each with the exact dictionary its pass 3 read, and the new keyframes carry no marker link. The final dictionary is exact. The map points follow A's pass account and then B's |
| MergeServer.Server.FindAprilTagConnections | src/Server.cc:220-267 | every keyframe becomes the correlator's result for it; identities, slots, links and map points are unchanged |
| MergeServer.Server.LinkMarker | src/Server.cc:222-265 | the visit writes only keyframe `j`, setting its marker link to what the lookup selects |
| MergeServer.Server.Correlate | src/Server.cc:113-115 | after the merge, each keyframe gains the link the correlator finds for it, if any, and changes in nothing else; both merges and the map points are preserved |
| MergeServer.Server.Run | src/Server.cc:63-115 | both merges hold, with A at offset 0 and B at the keyframe count after A, every merged keyframe its merged keyframe. The dictionaries of both connection passes and the final one are exact. The map points follow A's pass account and then B's. Each sequence's index records its own keyframes. Every keyframe ends with the correlator's link, or its earlier link (none for merged keyframes) |

## Left out

- Console output, the `cin.ignore()` pauses and every `sleep_for`. They are interaction and timing, with no effect on the data.
- Configuration loading, the `monocular` flag, the viewer and map drawer, and the loop-closing thread. Also left out: feeding keyframes to loop closing, the final bundle adjustment (lines 117-131) and `Shutdown`. These are threads, I/O and an external optimiser.
- The vocabulary loaders and `exit(-1)` on a failed load. The model keeps only which loader is chosen.
- `ComputeBoW` and `KeyFrameDatabase`. These are foreign library code.
- World positions and descriptors (`cv::Mat`) are copied as opaque values.
- Timestamps are exact reals. Double rounding, infinities and NaN are not modelled; the infinite difference of an `end()` iterator is `None`.
- The keyframe copy constructor, `AddObservation`, `AddMapPoint`, `ChangeParent` and `Map` are not part of this model. They are replaced by minimal functions:
  - the copy constructor copies id, timestamp and marker flag, and starts slots and links empty;
  - `AddObservation` records (keyframe, slot);
  - `AddMapPoint` sets one slot;
  - `ChangeParent` sets the parent only. Any effect on the parent's child set is not modelled;
  - `Map` is the set of created nodes.
- Map-point ids and other fields the `MapPoint` constructor sets beyond position, reference keyframe and descriptor.
- The order in which `std::map` visits covisibility weights is by pointer address, which the model cannot see. It is a parameter (`weightOrders`): any order listing each key once.
- `client->RegisterServer(this)`. This is a call into the client.
- Client maps are read-only inputs that do not change while the server runs.
- Every non-null slot must point to a map point of a registered client (`SlotsWellFormed`). A slot naming a culled point that is no longer in its client's map is not modelled.
- `mnId += offset` is on unbounded integers. A 32-bit overflow of ids or of `int offset` is not modelled.
- Graph.AddObservation: the stand-in records (keyframe, slot) every time it is called, so a client point held by two slots of one keyframe gains two observations of that keyframe (`Sightings`, `PassSightings`). Upstream ORB-SLAM2's `MapPoint::AddObservation` keeps one entry per keyframe, but `MapPoint.cc` is not part of this model.

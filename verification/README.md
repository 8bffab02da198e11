# lazily-py: a verified model

This project models the state machines at the centre of `lazily-py` in Dafny and proves
what they promise. `dafny verify dfyconfig.toml` checks all of it.

The state-changing parts are classes with the fields of the original, whose methods are
proved against transition functions on values; what the program promises is then proved
about those functions, over every input, every run, or every interleaving. Python integers
are unbounded and so are `int` and `nat`; widths are written out where the code imposes them.

| files | source | what they hold |
|---|---|---|
| `Lis`, `Reconciliation`, `ReconcileReplay`, `ReconcileValues`, `KeyedOrder` | `reconciliation.py`, `_keyed_order.py` | the patience-sorting kernel, the reconcile ops, their replay on keys and values, and their minimality |
| `FractionalKeys`, `VersionFrontier` | `lossless_tree_crdt.py` | keys between keys, dotted frontiers |
| `TreeState`, `TreeConvergence`, `TreeAgreement`, `TreeAntiEntropy` | `lossless_tree_crdt.py` | the tree, its convergence, and `diff` |
| `TreePlacement`, `TreeLossless`, `TreeDeadSplit`, `TreeRuns`, `TreeFollowers`, `TreeMinting`, `LosslessTreeCrdt` | `lossless_tree_crdt.py` | placement of children, lossless structure edits, their replication by one writer, the keys that peers mint, and the replica as a class |
| `Ingress`, `IngressProgress`, `IngressLifecycle`, `IngressDelivery`, `IngressCore` | `ingress_core.py` | admission and its progress, lifecycle, conservation, arrival-order independence |
| `Frames`, `CanonicalBytes` | `replay.py` | the canonical encoding |
| `CrdtPlane`, `CrdtProtocol`, `CrdtPlaneRuntime` | `crdt_plane.py` | winners, and anti-entropy among any number of replicas |
| `Msgpack`, `MsgpackRoundTrip`, `MsgpackNormal`, `MsgpackFormat`, `MsgpackCodec` | `msgpack_codec.py` | the binary codec |
| `WireNames`, `IpcWire`, `IpcRoundTrip`, `IpcForms` | `ipc.py`, `_delta_wire_gen.py`, `_wire_scalars.py` | the wire mapping of messages, end to end |
| `BlobArena` | `ipc.py` | the wrap-around arena |
| `AsyncEffect`, `AsyncSlot` | `async_effect.py`, `async_slot.py` | the two lifecycles as steps between awaits |
| `LatestDurable`, `LatestDurableOffers`, `LatestDurableCore` | `latest_durable_projection.py` | the durable projection |
| `Wrappers`, `Sequences`, `Bytes`, `FixedWidth` | | shared vocabulary |

## Where the code does less than it says

Each of these is a lemma below; where a property fails, its exact condition is proved too.

- `key_between` promises a key strictly inside for every `lo < hi`. It fails exactly when `hi`
  is `lo` followed by zeros (`FractionalKeys.BetweenIff`), and equal ends, which two peers can
  create at once, fall through and land behind both.
- `DotRange.from_dict` keeps a sparse counter that lies inside the prefix, so a loaded range
  can differ from an equal set of counters (`VersionFrontier.AbsorbCanonicalIff`).
- Children with equal sort keys stand in insertion order, so replicas that received the same
  ops in different orders can render different texts (`TreeAgreement.ChildrenAgreeIff`,
  `TreeAntiEntropy.TiedSiblingsDiverge`).
- A pull by `diff` can apply more than the two sides had applied, because it may wake ops that
  waited at the receiver (`TreeAntiEntropy.PullIsUnionIff`, `TreeAntiEntropy.PullAppliesWaiting`).
- A leaf made by a split keeps ROOT as its text head. A later split or merge of that leaf names
  it, no follower's frontier holds it unless peer 0 has written, and the op waits there for good
  (`TreeFollowers.FollowerCatchesUpIff`, `TreeFollowers.SecondSplitWaits`).
- `split_leaf` accepts a deleted leaf and brings its tail back
  (`TreeDeadSplit.DeadSplitKeepsTextIff`, `TreeDeadSplit.DeadSplitBringsBack`).
- Reconcile inserts carry no position, so replaying the op set reproduces the target order only
  when new keys come last (`ReconcileReplay.ReplayReachesTarget`).
- `IngressCore.open` at a higher generation keeps the undrained window, although the comment in
  the admission code names merging across the fence as the corruption to prevent
  (`IngressDelivery.OpenMixesGenerations`), and it leaves a scope that had delivered live before
  anything of that generation arrives (`IngressLifecycle.OpenLeavesLive`). An envelope of a higher
  generation discards the window even when it is refused
  (`IngressLifecycle.RefusedFenceLosesWindow`; exactly when: `IngressLifecycle.LifecycleAfter`).
  `suspend` is documented to stop delivering; the code delivers to a suspended scope and makes it
  live (`IngressDelivery.SuspendedDelivers`).
- The plane identifies an op by node and stamp and ignores its key, so an op can be dropped
  (`CrdtPlane.SharedStampLosesKey`); `CrdtPlane.StoredIff` and `CrdtPlane.IngestsAllIff` say when
  one op, or a whole batch, is taken in.
- Frontiers stay honest only under deltas applied by the replica they were built for, and under
  stamps that increase at each peer (`CrdtProtocol.MisdirectedDeltaSkips`,
  `CrdtProtocol.LoneOpSkips`). `CrdtProtocol.HonestAfterDeltaIff` says for any sender, receiver and
  frontier when a delta keeps the receiver honest; `CrdtProtocol.HonestAfterIff` and
  `CrdtProtocol.HonestAfterOpIff` say it for any frame and for one op, over the ops issued so far.
- A winner stamped at or before all zeros is in no delta for a peer that never heard of its producer
  (`CrdtPlane.UnknownProducerIff`).
- `stability_watermark` is documented as the point every replica has passed. It says nothing of
  other replicas (`CrdtProtocol.WatermarkBeforeExchange`, `CrdtProtocol.WatermarkIsLocal`), and of
  its own replica exactly what `CrdtProtocol.WatermarkPassedIff` and
  `CrdtProtocol.WatermarkReached` state.
- `ShmBlobArena.write_blob` does not check the epoch. Packing the header stops at one outside 64
  bits after it has written the fields before it and zeros, so a refused write destroys the blob
  it meets (`BlobArena.RefusedKeepsIff`, `BlobArena.RefusedEpochLosesBlob`).
- Overlapping calls of `AsyncEffect.flush` lose a cleanup (`AsyncEffects.ReturnLosesIff`) and can
  run a body beside a cleanup (`AsyncEffects.OverlapRunsBodyDuringCleanup`; exactly when:
  `AsyncEffects.BodyBesideCleanupIff` and `AsyncEffects.BodyBeforeCleanupIff`). A
  second `invalidate` during a running cleanup reports `SCHEDULED` where the kernel says
  otherwise (`AsyncEffects.InvalidateFollowsKernelIff`, `AsyncEffects.InvalidateLeavesKernel`).
- `AsyncSlot.invalidate` on a failed slot advances the revision although the kernel does not
  (`AsyncSlots.FollowsKernelIff`). A computation that returns None leaves a resolved slot that
  `is_well_formed` rejects (`AsyncSlots.KernelStaysWellFormedIff`).
- `IpcMessage.to_wire` of a message with several parts sends the first one only
  (`IpcRoundTrip.WireRoundTripIff`).

## Model

| member | source | states |
|---|---|---|
| `Lis.CountAbove` | src/lazily/reconciliation.py:121-128 | The binary search over strictly falling heads stops at the only split between heads above `v` and heads not above it. |
| `Lis.RunLengths` | src/lazily/reconciliation.py:117-138 | The right-to-left pass: every `len_start[j]` is one more than the longest strictly rising run behind `j` above its value, and the total is the length of the longest run of all. |
| `Lis.NextHeads` | src/lazily/reconciliation.py:129-135 | One update of `heads` keeps it exact: entry `l` is the largest value that starts a rising run of length `l + 1`, so the list stays strictly falling. |
| `Lis.GreedyStep` | src/lazily/reconciliation.py:136-148 | Comparing an exact run length with the remaining length decides, in both directions, which branch the take-or-skip recursion takes; so the greedy walk never gets stuck. |
| `Lis.Walk` | src/lazily/reconciliation.py:136-148 | The left-to-right pass picks exactly the keys at the positions of the best run, and completes it. |
| `Lis.LisBy` | src/lazily/reconciliation.py:96-148 | The two passes together return the best run of the take-or-skip recursion. |
| `Lis.LisIsOptimal` | src/lazily/reconciliation.py:96-148 | The result of `lis_by` is strictly rising, no rising run is longer, and none of the same length starts earlier lexicographically. |
| `Reconciliation.CommonIn` | src/lazily/reconciliation.py:161-165 | The common keys are the intersection, and duplicate-free when the target is. |
| `Reconciliation.MovedIn` | src/lazily/reconciliation.py:180-184 | The moved keys are the common keys without the stable ones. |
| `Reconciliation.ReconcileOps` | src/lazily/reconciliation.py:192-243 | The four emitting loops, with the scan for the anchor, produce removes, inserts, updates and moves in this order; each move names the target predecessor. |
| `Reconciliation.AnchorIsPredecessor` | src/lazily/reconciliation.py:225-241 | The last stable or moved key before `k` in the target is the predecessor of `k` among the common keys. |
| `ReconcileReplay.MoveSettles` | src/lazily/reconciliation.py:225-241 | Each emitted move puts one more key into its target place among those already settled and disturbs none of them. |
| `ReconcileReplay.StableAgree` | src/lazily/reconciliation.py:168-177 | The stable keys stand in the same relative order in the prior and in the target level. |
| `ReconcileReplay.MovesReachTarget` | src/lazily/reconciliation.py:225-241 | Replaying the moves in order through `move_after`, or `move_to(key, 0)`, turns the prior order of the common keys into the target order of them, whatever other keys follow. |
| `ReconcileReplay.ReplayResult` | src/lazily/reconciliation.py:192-243 | Replaying the whole op set on the prior list gives the common keys in target order followed by the new keys. |
| `ReconcileReplay.ReplayReachesTarget` | src/lazily/reconciliation.py:192-243 | The replay reproduces the target order if and only if every target key in front of a shared key is itself shared: inserts carry no position. |
| `ReconcileValues.ReplayGivesValues` | src/lazily/reconciliation.py:192-243 | Replayed on keys and values together, the op set gives every target key its target value, and nothing of what only the prior level held is left. |
| `ReconcileValues.ReplayIsTargetIff` | src/lazily/reconciliation.py:192-243 | The replay reproduces the whole target level, order and values, if and only if every key in front of a shared key is itself shared. |
| `ReconcileValues.EmittedIff` | src/lazily/reconciliation.py:192-243 | An op is emitted if and only if it is a remove of a key of the prior level alone, an insert of a key of the target level alone, an update of a common key whose values differ, each with the target value, or a move of a common key off the stable run behind its predecessor. |
| `ReconcileReplay.InsertInFrontIsLost` | src/lazily/reconciliation.py:192-243 | A one-key example in which the replay misses the target. |
| `ReconcileReplay.UntouchedStay` | src/lazily/_keyed_order.py:128-147 | Keys that a run of single-key repositions never touches keep their relative order. |
| `ReconcileReplay.AgreeingKeysAreFew` | src/lazily/reconciliation.py:168-177 | No set of common keys that already agrees on both sides is larger than the stable set. |
| `ReconcileReplay.MovesAreMinimal` | src/lazily/reconciliation.py:168-243 | Any run of single-key repositions from the prior to the target order of the common keys touches at least as many keys as `reconcile_ops` moves. |
| `KeyedOrders.AfterSlot` | src/lazily/_keyed_order.py:165-172 | The slot `move_after` computes before removal is the one right behind the anchor after it, in every case of who stands first. |
| `KeyedOrders.BeforeSlot` | src/lazily/_keyed_order.py:149-163 | The slot of `move_before` is the one right in front of the anchor. |
| `KeyedOrders.MoveKeepsKeys` | src/lazily/_keyed_order.py:128-147 | A move keeps the keys, their number and the order of all the others. |
| `KeyedOrders.KeyedOrder.Add` | src/lazily/_keyed_order.py:103-115 | A warm key keeps its handle and its place; a new one is appended with the given handle. |
| `KeyedOrders.KeyedOrder.Remove` | src/lazily/_keyed_order.py:117-126 | The key leaves the order and the table, its handle is returned, nothing else changes; an unknown key changes nothing. |
| `KeyedOrders.KeyedOrder.MoveKeyTo` | src/lazily/_keyed_order.py:128-147 | The new order is the lifted list with the key at the clamped index; `REORDERED` exactly when the order changed and `MISSING` exactly for an unknown key. |
| `KeyedOrders.KeyedOrder.MoveKeyBefore` | src/lazily/_keyed_order.py:149-163 | The key comes right in front of the anchor; `MISSING` exactly when either is unknown. |
| `KeyedOrders.KeyedOrder.MoveKeyAfter` | src/lazily/_keyed_order.py:165-172 | The key comes right behind the anchor; `MISSING` exactly when either is unknown. |
| `FractionalKeys.KeyBetween` | src/lazily/lossless_tree_crdt.py:179-208 | The digit loop, both phases, computes the key that the specification gives for either end open or closed. |
| `FractionalKeys.BetweenIff` | src/lazily/lossless_tree_crdt.py:179-208 | `key_between(lo, hi)` is strictly between its ends if and only if `lo < hi` and `hi` is not `lo` followed by zeros only. |
| `FractionalKeys.BetweenProper` | src/lazily/lossless_tree_crdt.py:179-208 | With either end open, or an upper end that does not finish in 0, the key is strictly inside, its digits are bytes and it does not finish in 0: it is again a valid end. |
| `FractionalKeys.EqualEndsFallThrough` | src/lazily/lossless_tree_crdt.py:207 | Equal ends leave no room: the key lands behind both. |
| `FractionalKeys.BetweenIs` | src/lazily/lossless_tree_crdt.py:179-208 | Which key it is, to the byte: the lower end up to the first digit with room above it and the digit midway there, or, when no digit of the lower end lies below the upper one, the padded lower end and 128. |
| `FractionalKeys.MidwayUnique` | src/lazily/lossless_tree_crdt.py:179-208 | That leaves one key, so two ports that follow it agree. |
| `FractionalKeys.CmpSort` | src/lazily/lossless_tree_crdt.py:168-176 | The three-way comparison agrees with the order by fraction, then peer. |
| `FractionalKeys.KeyTotal` | src/lazily/lossless_tree_crdt.py:168-176 | The sort order is total and strict. |
| `VersionFrontier.ObservedAdds` | src/lazily/lossless_tree_crdt.py:349-355 | Observing adds exactly one counter to the set and keeps the form canonical. |
| `VersionFrontier.CanonicalUnique` | src/lazily/lossless_tree_crdt.py:363-366 | Canonical ranges that hold the same counters are equal field by field, so structural equality is set equality. |
| `VersionFrontier.AbsorbCanonicalIff` | src/lazily/lossless_tree_crdt.py:374-383 | A range loaded from fields is canonical if and only if no sparse counter lies inside the prefix. |
| `VersionFrontier.UncanonicalLoad` | src/lazily/lossless_tree_crdt.py:374-383 | A loaded range that holds the same counters as a canonical one and differs from it. |
| `VersionFrontier.SavedLoads` | src/lazily/lossless_tree_crdt.py:371-383 | Loading what a canonical range saved gives the same range. |
| `VersionFrontier.DotRange.Observe` | src/lazily/lossless_tree_crdt.py:349-355 | The set and the absorbing loop reach the canonical form of the grown set. |
| `VersionFrontier.DotRange.Load` | src/lazily/lossless_tree_crdt.py:374-383 | `from_dict` takes the fields as they come and absorbs. |
| `VersionFrontier.ObserveDenotes` | src/lazily/lossless_tree_crdt.py:403-408 | The frontier denotes exactly the ids observed, per peer. |
| `VersionFrontier.DenotesUnique` | src/lazily/lossless_tree_crdt.py:415-418 | Two frontiers that denote the same ids are equal. |
| `VersionFrontier.TreeVersionFrontier.ContainsId` | src/lazily/lossless_tree_crdt.py:399-401 | Membership in the range of the peer, if it has one. |
| `VersionFrontier.TreeVersionFrontier.Observe` | src/lazily/lossless_tree_crdt.py:403-408 | The range of the op's peer, made when missing, observes its counter; all other ranges stay. |
| `TreeConvergence.AppliedNodes` | src/lazily/lossless_tree_crdt.py:1048-1078 | After one create, delete or reorder every record is again the one the log determines: greatest-stamp sort, least-id tombstone. |
| `TreeConvergence.UpdatedCoherent` | src/lazily/lossless_tree_crdt.py:981-1036 | `apply_update` keeps a replica coherent, whatever the batch holds and in whatever order, and it then knows exactly the old ops and the delivered ones. |
| `TreeConvergence.LocalCoherent` | src/lazily/lossless_tree_crdt.py:757-759 | A local op with a fresh id is applied at once and keeps the replica coherent. |
| `TreeAgreement.AppliedIsClosed` | src/lazily/lossless_tree_crdt.py:996-1036 | Every known op whose target or parent is there has been applied ... |
| `TreeAgreement.AppliedIsLeast` | src/lazily/lossless_tree_crdt.py:996-1036 | ... and the applied set is the least set of known ops with this property. |
| `TreeAgreement.SameKnownSameState` | src/lazily/lossless_tree_crdt.py:981-1078 | Replicas that received the same ops have applied the same ones and hold equal records and equal frontiers. |
| `TreeAgreement.StableSortIff` | src/lazily/lossless_tree_crdt.py:773 | Two stable sorts of the same entries agree if and only if their ties stand in the same order. |
| `TreeAgreement.ChildrenAgreeIff` | src/lazily/lossless_tree_crdt.py:766-774 | Replicas with equal records list the children of a parent alike if and only if live siblings with equal keys were inserted in the same order. |
| `TreeAgreement.SameKnownSameRender` | src/lazily/lossless_tree_crdt.py:766-791 | With different keys for live siblings, replicas that received the same ops show the same children everywhere and render the same text. |
| `TreeAntiEntropy.DeliveriesConverge` | src/lazily/lossless_tree_crdt.py:981-1102 | Convergence: two replicas with the same knowledge, delivered the same creates, deletes and reorders in any order, batching and repetition, end with the same applied ops, frontier, records, children and text. |
| `TreeAntiEntropy.TiedSiblingsDiverge` | src/lazily/lossless_tree_crdt.py:773 | Without different keys it fails: two creations at one key, delivered in either order, leave different child orders and different texts, the leaves of one read "ab" and of the other "ba". |
| `TreeAntiEntropy.DiffIsExact` | src/lazily/lossless_tree_crdt.py:973-979 | `diff(f)` holds exactly the logged ops missing from `f`, holes included, in id order. |
| `TreeAntiEntropy.PullCatchesUp` | src/lazily/lossless_tree_crdt.py:973-1046 | After `b` applies `diff` of its frontier, it has applied everything either of them had, and its frontier denotes exactly what it has applied. |
| `TreeAntiEntropy.PullIsUnionIff` | src/lazily/lossless_tree_crdt.py:973-1046 | The pull yields exactly the union of both applied sets if and only if no op waiting at `b`, and not applied at `a`, was waiting for a node that `a` had. |
| `TreeAntiEntropy.PullAppliesWaiting` | src/lazily/lossless_tree_crdt.py:973-1046 | A concrete pull that applies an op neither side had applied: a deletion that waited for the creation. |
| `TreePlacement.KidsRanked` | src/lazily/lossless_tree_crdt.py:766-774 | The child order ranks the live children by key, then by insertion. |
| `TreePlacement.KeyAfterSeparates` | src/lazily/lossless_tree_crdt.py:831-853 | The computed key lies above every child in front of the slot and below every child behind it, wherever the neighbours of the slot differ. |
| `TreePlacement.CreatedLands` | src/lazily/lossless_tree_crdt.py:855-866 | A created node appears at its slot, no other child order changes, and keys of live siblings stay different. |
| `TreePlacement.CreatedAdjacentIff` | src/lazily/lossless_tree_crdt.py:831-866 | Behind a live anchor the new node comes directly after it if and only if the next sibling holds another fraction. |
| `TreePlacement.MovedLands` | src/lazily/lossless_tree_crdt.py:874-880 | A moved child is lifted out and put at its slot; nobody else moves. |
| `TreePlacement.MovedAdjacent` | src/lazily/lossless_tree_crdt.py:874-880 | Moved behind another live child, a node comes directly after it. |
| `TreePlacement.BuriedLeaves` | src/lazily/lossless_tree_crdt.py:868-872 | A deleted node leaves its place; the others keep theirs. |
| `TreeMinting.MintedKeyIsOwn` | src/lazily/lossless_tree_crdt.py:831-931 | The key that a local create, move or split mints carries the peer of the replica, which is the peer of the op. |
| `TreeMinting.MintedKeysDiffer` | src/lazily/lossless_tree_crdt.py:831-931 | Keys minted by replicas of different peers are never equal. |
| `TreeMinting.EditRefusedIff` | src/lazily/lossless_tree_crdt.py:855-971 | Exactly which local edits are refused: an unknown parent, an unknown node or the root, an offset outside the text of a leaf, and leaves that are not live siblings next to each other. |
| `TreeMinting.ActedOwned` | src/lazily/lossless_tree_crdt.py:831-1155 | Edits of its own and batches of such ops from anywhere keep every key of a replica on the peer whose op set it, splits and merges included. |
| `TreeMinting.TiesAreOfOnePeer` | src/lazily/lossless_tree_crdt.py:766-774 | So two siblings with one sort key were placed by one and the same peer. |
| `TreeMinting.PeersConverge` | src/lazily/lossless_tree_crdt.py:766-791 | Replicas that received the same ops render the same text if each peer kept its own keys apart, whatever the others minted. |
| `TreeMinting.ExchangeRendersAlike` | src/lazily/lossless_tree_crdt.py:831-1011 | Two replicas that know the same place one node each, at any slots with room, the same one included, and exchange the two ops: they list and render alike, without assuming that the minted keys differ, and are ready for the next round. |
| `TreeMinting.FirstLeavesReadByPeer` | src/lazily/lossless_tree_crdt.py:831-1011 | Two empty replicas that create a leaf each at once both read the leaf of the smaller peer first. |
| `TreeLossless.SplitLands` | src/lazily/lossless_tree_crdt.py:911-931 | The new leaf of a split appears right behind the split one, and nothing else moves. |
| `TreeLossless.SplitKeepsText` | src/lazily/lossless_tree_crdt.py:911-931 | Splitting a live leaf at any offset keeps the text of the whole tree. |
| `TreeLossless.MergeKeepsText` | src/lazily/lossless_tree_crdt.py:934-971 | Merging two adjacent live leaves keeps the text of the whole tree. |
| `TreeLossless.SameTextEverywhere` | src/lazily/lossless_tree_crdt.py:776-791 | If the children of one element still spell the same text and nothing else changed, the whole tree renders the same. |
| `TreeDeadSplit.DeadSplitAppends` | src/lazily/lossless_tree_crdt.py:1104-1134 | Splitting a deleted leaf brings its tail back, behind the live children of its parent. |
| `TreeDeadSplit.DeadSplitKeepsTextIff` | src/lazily/lossless_tree_crdt.py:1104-1134 | It keeps the text if and only if the tail is empty or the parent is not shown as an element. |
| `TreeDeadSplit.DeadSplitBringsBack` | src/lazily/lossless_tree_crdt.py:1104-1134 | Create a leaf "ab", delete it, split it at 1: the text goes from empty to "b". |
| `TreeDeadSplit.TakenIdLosesTail` | src/lazily/lossless_tree_crdt.py:1104-1134 | A split op whose new id is taken cuts the leaf, and its tail goes nowhere. |
| `TreeRuns.EditedSolo` | src/lazily/lossless_tree_crdt.py:855-971 | Every local edit keeps live siblings on different fractions that do not end in 0. |
| `TreeRuns.RunsPlaceBehind` | src/lazily/lossless_tree_crdt.py:831-880 | In every run of one replica, a node created or moved behind a live sibling comes directly after it. |
| `TreeState.ByteToCharIff` | src/lazily/lossless_tree_crdt.py:211-229 | A byte offset is accepted if and only if some first characters take up that many bytes, and is read as their number. |
| `TreeState.WidthIsLeast` | src/lazily/lossless_tree_crdt.py:211-230 | A character takes the fewest UTF-8 bytes that hold it. |
| `TreeState.ByteSplitIs` | src/lazily/lossless_tree_crdt.py:911-931 | Splitting at a byte offset is splitting behind the characters that take up that many bytes; an offset between no characters is refused. |
| `TreeRuns.RunsAreLossless` | src/lazily/lossless_tree_crdt.py:911-971 | In every run of one replica, splits of live leaves and merges keep the rendered text. |
| `TreeFollowers.DiffIsRest` | src/lazily/lossless_tree_crdt.py:973-979 | To a follower that holds the first ops of a writer on its own, `diff` sends the others, in the order they were made. |
| `TreeFollowers.FollowerCatchesUpIff` | src/lazily/lossless_tree_crdt.py:911-1046 | A follower that holds a part of a solo run and pulls the rest applies all of it, splits and merges included, if and only if none of the rest names ROOT as a text head, or the writer is peer 0; it then holds the same records and order. |
| `TreeFollowers.SecondSplitWaits` | src/lazily/lossless_tree_crdt.py:1104-1134 | Three edits suffice: a leaf, a split of it, and a split of the leaf that split made, which keeps ROOT as its text head. |
| `TreeFollowers.WaitsForever` | src/lazily/lossless_tree_crdt.py:1013-1036 | No later delivery without ops of peer 0, in whatever batches, applies such an op. |
| `LosslessTreeCrdts.LosslessTreeCrdt.constructor` | src/lazily/lossless_tree_crdt.py:670-691 | A new replica is the empty tree with its root. |
| `LosslessTreeCrdts.LosslessTreeCrdt.IndexIsScan` | src/lazily/lossless_tree_crdt.py:693-714 | In every state the child index of a parent is what a scan of all records by parent finds, dead or alive, in insertion order. |
| `LosslessTreeCrdts.LosslessTreeCrdt.LiveChildren` | src/lazily/lossless_tree_crdt.py:766-774 | Filtering the bucket and sorting it gives the child order of the specification. |
| `LosslessTreeCrdts.LosslessTreeCrdt.RenderText` | src/lazily/lossless_tree_crdt.py:776-791 | The walk appends the text of the specification. |
| `LosslessTreeCrdts.LosslessTreeCrdt.FindKeyAfter` | src/lazily/lossless_tree_crdt.py:831-853 | The key between the neighbours of the slot. |
| `LosslessTreeCrdts.LosslessTreeCrdt.CreateNode` | src/lazily/lossless_tree_crdt.py:855-866 | The new state is that of the specification, the id is the next one, and a missing parent is refused without a change. |
| `LosslessTreeCrdts.LosslessTreeCrdt.TombstoneNode` | src/lazily/lossless_tree_crdt.py:868-872 | The same for a delete; a missing node and the root are refused. |
| `LosslessTreeCrdts.LosslessTreeCrdt.ReorderChild` | src/lazily/lossless_tree_crdt.py:874-880 | The same for a reorder; a missing node and the root are refused. |
| `LosslessTreeCrdts.LosslessTreeCrdt.CharOffset` | src/lazily/lossless_tree_crdt.py:211-229 | The character offset of a byte offset, or none. |
| `LosslessTreeCrdts.LosslessTreeCrdt.SplitLeafAt` | src/lazily/lossless_tree_crdt.py:911-931 | The same for a split at a byte offset, with each refusal: no such node, not a leaf, an offset out of range or inside a character. |
| `LosslessTreeCrdts.LosslessTreeCrdt.MergeAdjacentLeaves` | src/lazily/lossless_tree_crdt.py:934-971 | The same for a merge, with each refusal in the order the code checks: no node, not a leaf, not adjacent. |
| `LosslessTreeCrdts.LosslessTreeCrdt.DiffFor` | src/lazily/lossless_tree_crdt.py:973-979 | The sorted list of logged ops the other frontier lacks. |
| `LosslessTreeCrdts.LosslessTreeCrdt.ApplyUpdate` | src/lazily/lossless_tree_crdt.py:981-994 | For any ops at all, clock, deduplication, buffering and draining reach the state of the specification. |
| `LosslessTreeCrdts.LosslessTreeCrdt.DrainBuffered` | src/lazily/lossless_tree_crdt.py:996-1011 | Sweeping until a sweep applies none reaches the drained state. |
| `LosslessTreeCrdts.LosslessTreeCrdt.DependenciesReady` | src/lazily/lossless_tree_crdt.py:1013-1036 | An op is ready exactly when the nodes it needs are there. |
| `LosslessTreeCrdts.LosslessTreeCrdt.CommitOp` | src/lazily/lossless_tree_crdt.py:1040-1046 | Apply, observe, log. |
| `LosslessTreeCrdts.LosslessTreeCrdt.ApplyOp` | src/lazily/lossless_tree_crdt.py:1048-1102 | The dispatch changes the stored records and the index as the specification says for every kind of op. |
| `LosslessTreeCrdts.LosslessTreeCrdt.ApplySplit` | src/lazily/lossless_tree_crdt.py:1104-1134 | The head stays, the tail goes into a new record under the same parent; a missing leaf changes nothing. |
| `LosslessTreeCrdts.LosslessTreeCrdt.ApplyMerge` | src/lazily/lossless_tree_crdt.py:1136-1153 | The left leaf takes both texts, the right one is deleted; a missing leaf or an element changes nothing. |
| `Ingress.StepSound` | src/lazily/ingress_core.py:856-1242 | Every call keeps every scope sound: delivered sequences are `0 .. delivered_through`, each once, ascending, with the accepted payloads; pending keys exceed the next expected one; pending stays within `reorder_window`; window and depth are fold and count since the last clear. |
| `Ingress.RunSound` | src/lazily/ingress_core.py:856-1242 | So in every reachable state of every run of calls. |
| `Ingress.WatermarkIff` | src/lazily/ingress_core.py:1141-1222 | The watermark has passed `n` if and only if everything up to `n` was accepted: nothing is withheld without a gap. |
| `Ingress.StepElsewhere` | src/lazily/ingress_core.py:856-1139 | A call changes at most the scope it names. |
| `Ingress.FoldConcat` | src/lazily/ingress_core.py:1224-1242 | Under an associative merge, folding a concatenation merges the two folds. |
| `IngressProgress.FencedIff` | src/lazily/ingress_core.py:1141-1160 | Lifecycle, generation and freshness refuse in this order, each exactly when it says, and leave the scope alone. |
| `IngressProgress.OrderedIff` | src/lazily/ingress_core.py:1176-1203 | Within the fences an envelope behind a gap is buffered if and only if its sequence was not accepted before and fewer than `reorder_window` wait beyond the gap; the answer names the first missing sequence. Duplicates, overflow, blocking and backpressure each have their exact condition, and everything else in order is delivered. |
| `IngressProgress.TakenIn` | src/lazily/ingress_core.py:1141-1222 | What is buffered or delivered is accepted with its payload; a refusal within the generation changes nothing. |
| `IngressProgress.AdmittedSays` | src/lazily/ingress_core.py:1162-1222 | A delivery answers the watermark it leaves, the fence it raised, and `conflated` if and only if it met a payload in the window or brought a buffered one along. |
| `IngressProgress.HandoffStartsOver` | src/lazily/ingress_core.py:1162-1174 | An envelope of a higher generation is decided as if nothing had come before it. |
| `IngressProgress.OfferAcceptedIff` | src/lazily/ingress_core.py:1141-1222 | With a window that does not push back, one offer is accepted by then if and only if what would wait beyond a gap fits the reorder window. |
| `IngressProgress.OffersAreDelivered` | src/lazily/ingress_core.py:1033-1222 | Progress: whatever is offered fresh, in any order the reorder window can hold, is accepted, and the watermark stands right in front of the first sequence that was never offered. |
| `IngressProgress.WatermarkArrives` | src/lazily/ingress_core.py:1033-1222 | So a scope that is offered `0 .. n` in any such order has the watermark pass `n`. |
| `IngressLifecycle.LifecycleAfter` | src/lazily/ingress_core.py:856-1222 | What each call does to the readiness of a scope: closing, suspending, waking, delivering; an envelope of a higher generation fences the scope even when it is refused. |
| `IngressLifecycle.Appears` | src/lazily/ingress_core.py:856-1139 | Which calls make a scope that is not there, at which generation and readiness; all others change nothing. |
| `IngressLifecycle.ErrorsInARow` | src/lazily/ingress_core.py:909-1203 | A failure counts one more error; a delivery, a reconnect and a closing start over; nothing else touches the count. |
| `IngressLifecycle.StampsDelivered` | src/lazily/ingress_core.py:1224-1242 | A buffered envelope keeps its stamp, and a delivery moves the stamp of the scope to the latest of its own, the envelope's, and those of the buffered ones it delivers. |
| `IngressLifecycle.ClockFollows` | src/lazily/ingress_core.py:971-990 | The clock is what the last tick said. |
| `IngressLifecycle.ClosedStartsOver` | src/lazily/ingress_core.py:856-969 | Closing gives up what was buffered and undrained and keeps the watermark; opening a closed scope starts over. |
| `IngressDelivery.StepConservedIff` | src/lazily/ingress_core.py:856-1242 | A call keeps every delivered payload, drained or in the window, if and only if it is none of the losing ones: drop-oldest on a full window, a close, or an open at a higher generation with an undrained window. |
| `IngressDelivery.DecideConservedIff` | src/lazily/ingress_core.py:1141-1222 | For an admission this is: drop-oldest displaces a non-empty full window. |
| `IngressDelivery.TotalIsFold` | src/lazily/ingress_core.py:1015-1029 | The fold of all drained values followed by the window is the fold of the delivered payloads. |
| `IngressDelivery.SteadyRun` | src/lazily/ingress_core.py:856-1242 | Any run of calls that neither closes the scope nor raises its generation conserves what it delivers, unless the overflow policy is drop-oldest. |
| `IngressDelivery.ArrivalOrderIrrelevant` | src/lazily/ingress_core.py:1015-1242 | Two such schedules with one payload per sequence number, permuted, repeated, interleaved and under different bounds, that reach the same watermark give the same fold, namely that of the payloads in sequence order. Each may find the scope new or make it by its own first admission, open, reconnect or failure. |
| `IngressDelivery.FoundingRun` | src/lazily/ingress_core.py:856-1242 | The same conservation for a run that makes the scope itself, at the generation in question. |
| `IngressDelivery.DrainRegroups` | src/lazily/ingress_core.py:1015-1029 | Associativity is needed: a drain regroups the merge. |
| `IngressDelivery.OpenMixesGenerations` | src/lazily/ingress_core.py:856-890 | `open` at a higher generation keeps the undrained window, so the first value of the new producer is merged into the old one; `reconnect` and an admission at the new generation do not. |
| `IngressDelivery.SuspendedDelivers` | src/lazily/ingress_core.py:1033-1139 | A suspended scope decides as a live one does, and delivering makes it live. |
| `IngressLifecycle.OpenLeavesLive` | src/lazily/ingress_core.py:856-890 | `open` at a higher generation leaves a scope live although nothing of that generation was delivered; `reconnect` does not. |
| `IngressLifecycle.RefusedFenceLosesWindow` | src/lazily/ingress_core.py:1162-1184 | With no room to buffer, a refused envelope of a higher generation still discards the undrained window. |
| `IngressCores.ScopeRecord.MergeInto` | src/lazily/ingress_core.py:1224-1242 | The payload joins the window and the watermark moves to its sequence; it conflates exactly when the window was occupied. |
| `IngressCores.ScopeRecord.Flush` | src/lazily/ingress_core.py:1205-1215 | The loop delivers every buffered successor that is next in order. |
| `IngressCores.ScopeRecord.DecideOn` | src/lazily/ingress_core.py:1141-1222 | Fence, freshness, duplicates, reorder bound, backpressure and delivery give the decision and the scope of the specification. |
| `IngressCores.ScopeRecord.Reopen` | src/lazily/ingress_core.py:856-890 | A higher generation restarts the sequence space; an equal or lower one changes readiness alone. |
| `IngressCores.IngressCore.Admit` | src/lazily/ingress_core.py:1033-1139 | The new core and the verdict are those of the specification; a scope that rejects its very first envelope is not kept. |
| `IngressCores.IngressCore.Open` | src/lazily/ingress_core.py:856-890 | The new core is that of the specification. |
| `IngressCores.IngressCore.Suspend` | src/lazily/ingress_core.py:892-907 | The same; the replay request names generation and first missing sequence, unless suspended or closed already. |
| `IngressCores.IngressCore.Reconnect` | src/lazily/ingress_core.py:909-943 | The same; the request names the first missing sequence of the generation adopted. |
| `IngressCores.IngressCore.Close` | src/lazily/ingress_core.py:945-969 | The same. |
| `IngressCores.IngressCore.Drain` | src/lazily/ingress_core.py:1015-1029 | The window handed out is the fold of the payloads since the last clear, and is cleared. |
| `IngressCores.IngressCore.Fail` | src/lazily/ingress_core.py:992-1013 | One more error for the scope, made when missing. |
| `IngressCores.IngressCore.Tick` | src/lazily/ingress_core.py:971-990 | The observed clock is set, and no scope changes. |
| `Frames.DecimalReads` | src/lazily/replay.py:181-182 | The decimal length is digits only and reads back as the number. |
| `Frames.FrameUnique` | src/lazily/replay.py:181-182 | A tagged, length-prefixed frame can be read off the front of any bytes in one way only. |
| `Frames.JoinUnique` | src/lazily/replay.py:216-235 | A concatenation of non-empty words none of which begins another has one reading. |
| `Frames.SortSameIff` | src/lazily/replay.py:221-228 | Sorting words by their bytes gives equal lists if and only if the multisets are equal. |
| `CanonicalBytes.CanonFront` | src/lazily/replay.py:185-241 | An encoding can be read off the front of any bytes in one way only. |
| `CanonicalBytes.RecordBody` | src/lazily/replay.py:209-215 | The loop of the dataclass arm builds name and fields in order. |
| `CanonicalBytes.MappingSameIff` | src/lazily/replay.py:216-223 | Mappings encode alike if and only if their entries match up in some order, keys and values alike. |
| `CanonicalBytes.SetSameIff` | src/lazily/replay.py:224-228 | Sets encode alike if and only if their members match up in some order. |
| `CanonicalBytes.ListSameIff` | src/lazily/replay.py:229-235 | Sequences encode alike if and only if they agree place by place. |
| `CanonicalBytes.RecordSameIff` | src/lazily/replay.py:209-215 | Records encode alike if and only if name, field names and field values agree. |
| `CanonicalBytes.IntTextInjective` | src/lazily/replay.py:199-200 | Different integers have different decimal texts, sign included. |
| `CanonicalBytes.CanonSameIff` | src/lazily/replay.py:185-254 | `canonical_bytes(v) == canonical_bytes(w)` if and only if v and w are the same value up to the order of map entries and set members, at every depth. |
| `CanonicalBytes.KindLetters` | src/lazily/replay.py:185-235 | The first byte is the letter of the kind of value. |
| `CanonicalBytes.SingletonsWritten` | src/lazily/replay.py:187-192 | `n0:`, `b1:1` and `b1:0`. |
| `CanonicalBytes.IntsWritten` | src/lazily/replay.py:199-200 | `i2:42` and `i2:-7`. |
| `CanonicalBytes.BodiesWritten` | src/lazily/replay.py:193-215 | Texts, byte strings and floats are their data behind the colon; members and records give their class first. |
| `CanonicalBytes.CompoundsWritten` | src/lazily/replay.py:216-235 | Items stand in their own order, members and entries sorted by their bytes, keys in front of values. |
| `CrdtPlane.WinsIff` | src/lazily/crdt_plane.py:130-167 | An entry wins if and only if it was ingested and no ingested entry of its slot has a later stamp. |
| `CrdtPlane.SameOpsSameWinners` | src/lazily/crdt_plane.py:130-181 | The same ops in any order, batching and repetition give the same winners and the same applied set. |
| `CrdtPlane.LastWriterWins` | src/lazily/crdt_plane.py:130-167 | Of two writes to one slot, in either order, the later wall time wins, then the greater logical count, then the greater peer. |
| `CrdtPlane.RedeliveryIdle` | src/lazily/crdt_plane.py:169-181 | A frame delivered again changes nothing. |
| `CrdtPlane.SharedStampLosesKey` | src/lazily/crdt_plane.py:140 | Two ops that share node and stamp under different keys are taken for one; the second is never stored. |
| `CrdtPlane.StoredIff` | src/lazily/crdt_plane.py:130-167 | After an op is handed in, its slot has a winner at least as late if and only if its node and stamp were not known yet, or the slot had such a winner before. |
| `CrdtPlane.IngestsAllIff` | src/lazily/crdt_plane.py:130-190 | A batch handed to a fresh replica is ingested whole if and only if no two of its entries share node and stamp. |
| `CrdtPlane.WatermarkUnique` | src/lazily/crdt_plane.py:288-297 | A frontier has one watermark at most. |
| `CrdtPlane.LackedIff` | src/lazily/crdt_plane.py:315-335 | A delta carries exactly the winners newer than the frontier it answers. |
| `CrdtPlane.UnknownProducerIff` | src/lazily/crdt_plane.py:315-335 | To a peer that never heard of the producer a delta sends a winner if and only if it is stamped later than all zeros. |
| `CrdtProtocol.DeltaCovers` | src/lazily/crdt_plane.py:315-335 | A delta built for a frontier its receiver is honest about supplies every winner of the sender that the receiver lacks. |
| `CrdtProtocol.DeliverySound` | src/lazily/crdt_plane.py:169-181 | A receiver that applies a sound frame stays honest, dominates the sender, and loses no winner. |
| `CrdtProtocol.StepSound` | src/lazily/crdt_plane.py:130-181 | Every write, request, reply, publication and delivery keeps all replicas, requests and messages in flight sound. |
| `CrdtProtocol.EveryReplicaHonest` | src/lazily/crdt_plane.py:284-335 | In every reachable state of any number of replicas, whatever was issued at or below a replica's frontier has a winner at least as late there, and its winners are the maxima of what it ingested. |
| `CrdtProtocol.DeliveryDominates` | src/lazily/crdt_plane.py:169-181 | A reply or publication that arrives, however late and however often, leaves its receiver with a winner at least as late as each winner the sender had. |
| `CrdtProtocol.PassedIsWithheld` | src/lazily/crdt_plane.py:315-335 | A winner at or below the credited frontier is in no delta. |
| `CrdtProtocol.HonestAfterIff` | src/lazily/crdt_plane.py:169-181 | A frame within its own frontier leaves an honest replica honest if and only if replica and frame together reach every issued op at or below the frontier the frame claims. |
| `CrdtProtocol.HonestAfterOpIff` | src/lazily/crdt_plane.py:130-167 | One op by itself leaves an honest replica honest if and only if every op its peer issued up to it is in the op's slot or reached already. |
| `CrdtProtocol.HonestAfterDeltaIff` | src/lazily/crdt_plane.py:315-335 | A delta that one honest replica built for any frontier whatever leaves another honest replica honest if and only if that replica reaches every winner of the sender at or below the frontier. |
| `CrdtProtocol.MisdirectedDeltaSkips` | src/lazily/crdt_plane.py:315-335 | A delta applied by a replica it was not built for makes that replica dishonest, and asking the sender again does not repair it. |
| `CrdtProtocol.LoneOpSkips` | src/lazily/crdt_plane.py:130-167 | One op handed over by itself has the same effect on an earlier op of its peer. |
| `CrdtProtocol.WatermarkReached` | src/lazily/crdt_plane.py:288-297 | In every reachable state, whatever a peer of its frontier issued at or below a replica's watermark has a winner at least as late at that replica. |
| `CrdtProtocol.WatermarkPassedIff` | src/lazily/crdt_plane.py:288-297 | Up to any stamp no later than its watermark, a frontier has passed everything issued if and only if it names every peer that issued any of it. |
| `CrdtProtocol.WatermarkBeforeExchange` | src/lazily/crdt_plane.py:288-297 | After one local write the writer's watermark is that write, which no other replica has seen. |
| `CrdtProtocol.WatermarkIsLocal` | src/lazily/crdt_plane.py:288-297 | No watermark tells what other replicas passed: the same run with one more replica leaves every plane as it was and that replica with nothing. |
| `CrdtPlaneRuntimes.CrdtPlaneRuntime.StabilityWatermark` | src/lazily/crdt_plane.py:288-297 | The loop returns the least stamp of the frontier, none exactly when the frontier is empty. |
| `CrdtPlaneRuntimes.CrdtPlaneRuntime.ApplyOp` | src/lazily/crdt_plane.py:130-167 | New state and result of `apply`; new exactly when (node, stamp) was not seen. |
| `CrdtPlaneRuntimes.CrdtPlaneRuntime.PutEntry` | src/lazily/crdt_plane.py:157-167 | The indexed list and the index change as a search of the whole list would have it. |
| `CrdtPlaneRuntimes.CrdtPlaneRuntime.ApplySync` | src/lazily/crdt_plane.py:169-181 | Ops one by one, then the frontier; the count is the growth of the applied set. |
| `CrdtPlaneRuntimes.CrdtPlaneRuntime.DeltaSync` | src/lazily/crdt_plane.py:315-335 | The frontier and the winners the other lacks, in list order. |
| `CrdtPlaneRuntimes.CrdtPlaneRuntime.ToSync` | src/lazily/crdt_plane.py:301-313 | The frontier and all winners. |
| `Msgpack.AllStops` | src/lazily/msgpack_codec.py:138-181 | The first element that cannot be packed decides the error. |
| `MsgpackRoundTrip.PackReads` | src/lazily/msgpack_codec.py:138-314 | A packed tree followed by anything is read back whole, and exactly what followed is left. |
| `MsgpackRoundTrip.RoundTrip` | src/lazily/msgpack_codec.py:184-314 | `msgpack_unpack(msgpack_pack(t)) == t` for every tree that packs, with legible texts and distinct map keys. |
| `MsgpackRoundTrip.TrailingRefused` | src/lazily/msgpack_codec.py:302-314 | Anything appended to a frame is refused. |
| `MsgpackRoundTrip.ReadStays` | src/lazily/msgpack_codec.py:241-299 | What follows a readable frame changes neither the tree nor where it ends. |
| `MsgpackRoundTrip.FramesPrefixFree` | src/lazily/msgpack_codec.py:302-314 | No readable frame is a proper beginning of another. |
| `MsgpackRoundTrip.PacksIff` | src/lazily/msgpack_codec.py:67-181 | Packing succeeds if and only if every integer fits 64 bits, signed or unsigned, every length fits 32 bits, and no byte string or float occurs. |
| `MsgpackNormal.ReadFits` | src/lazily/msgpack_codec.py:184-299 | Whatever is read off any bytes, in long forms or short, has legible texts and distinct keys and packs into no more bytes than it was read from. |
| `MsgpackNormal.Normalises` | src/lazily/msgpack_codec.py:184-314 | Any frame that is accepted, whoever wrote it: its tree packs, into a frame no longer, which reads back as the same tree. |
| `MsgpackRoundTrip.IntHeadReads` | src/lazily/msgpack_codec.py:67-97 | Every integer form, from fixint to 64 bits, reads back as the integer it packed. |
| `MsgpackFormat.HeadFollowsTable` | src/lazily/msgpack_codec.py:241-299 | Reading a head is looking its first byte up in the format table of MessagePack, with the number of the width given there. |
| `MsgpackFormat.TableCovers` | src/lazily/msgpack_codec.py:241-299 | Every first byte is on exactly one line of the table. |
| `MsgpackFormat.PackedStartsAs` | src/lazily/msgpack_codec.py:67-181 | A packed value starts on the line of its kind; what is not negative is packed without a sign. |
| `MsgpackFormat.UnpackableFor` | src/lazily/msgpack_codec.py:67-181 | The exact reason why a scalar is not packed. |
| `MsgpackFormat.TooManyFirst` | src/lazily/msgpack_codec.py:116-181 | A list or dictionary that is too long is refused before its elements; else the first element that is not packed decides. |
| `MsgpackFormat.UnreadableText` | src/lazily/msgpack_codec.py:218-222 | Too few bytes, or bytes that are not UTF-8. |
| `MsgpackFormat.UnreadableKey` | src/lazily/msgpack_codec.py:229-238 | A dictionary key that is not a text is refused as soon as it is read. |
| `MsgpackFormat.AssignIs` | src/lazily/msgpack_codec.py:229-238 | A repeated key keeps its place and takes the later value; a new one comes last. |
| `MsgpackCodec.Packer.PackValue` | src/lazily/msgpack_codec.py:138-181 | Packing appends exactly the code of the tree, or reports its error. |
| `MsgpackCodec.MsgpackPack` | src/lazily/msgpack_codec.py:184-188 | The code or the error of the whole tree. |
| `MsgpackCodec.Reader.Unpack` | src/lazily/msgpack_codec.py:241-299 | Tree, error and bytes left are those of the specification; the position only advances. |
| `MsgpackCodec.Reader.UnpackMap` | src/lazily/msgpack_codec.py:229-238 | Members are read in order; a repeated key keeps its place and takes the later value; a key that is no string is refused. |
| `MsgpackCodec.MsgpackUnpack` | src/lazily/msgpack_codec.py:302-314 | One tree and nothing behind it, else an error. |
| `WireNames.SpelledDiffer` | src/lazily/_delta_wire_gen.py:92-111 | All names of the wire are spelled differently. |
| `IpcRoundTrip.RecGet` | src/lazily/ipc.py:443-471 | A field of a written dictionary is found under its name. |
| `IpcRoundTrip.BlobRound` | src/lazily/_wire_scalars.py:251-284 | A descriptor is read back, with the default backend omitted on the wire. |
| `IpcRoundTrip.ValueRound` | src/lazily/_delta_wire_gen.py:469-516 | Inline and shared values are read back. |
| `IpcRoundTrip.StateRound` | src/lazily/_delta_wire_gen.py:519-579 | All three node states are read back. |
| `IpcRoundTrip.OpRound` | src/lazily/_delta_wire_gen.py:81-414 | Each of the ten delta operations is read back, through the strict checks of its fields. |
| `IpcRoundTrip.DeltaRound` | src/lazily/_delta_wire_gen.py:420-457 | A delta is read back. |
| `IpcRoundTrip.NodeSnapshotRound` | src/lazily/ipc.py:443-471 | A node snapshot is read back, with or without a key. |
| `IpcRoundTrip.SnapshotRound` | src/lazily/ipc.py:495-518 | A snapshot is read back. |
| `IpcRoundTrip.CrdtOpRound` | src/lazily/ipc.py:645-664 | A plane operation is read back, its key written as null when absent. |
| `IpcRoundTrip.SyncRound` | src/lazily/ipc.py:685-698 | A sync frame is read back. |
| `IpcRoundTrip.WireCarriesFirst` | src/lazily/ipc.py:821-852 | What arrives is the first part of the message, in the order `to_wire` checks. |
| `IpcRoundTrip.WireRoundTripIff` | src/lazily/ipc.py:821-852 | A fit message is read back as it was if and only if it has exactly one part. |
| `IpcRoundTrip.CodecRoundTrip` | src/lazily/ipc.py:865-883 | `decode_msgpack(encode_msgpack(m)) == m` for every fit message of one part whose tree can be packed; the others are refused at encoding. |
| `IpcForms.BodiesWritten` | src/lazily/_delta_wire_gen.py:126-414 | The bodies of delta operations with their literal names, in order. |
| `IpcForms.AddWritten` | src/lazily/_delta_wire_gen.py:218-238 | The body of an added node, with and without a key. |
| `IpcForms.OpWritten` | src/lazily/_delta_wire_gen.py:81-414 | Each of the ten operations is its body under its literal tag. |
| `IpcForms.BlobWritten` | src/lazily/_wire_scalars.py:251-264 | A descriptor with its literal names; the default backend is left out. |
| `IpcForms.ValuesWritten` | src/lazily/_delta_wire_gen.py:469-579 | Values and node states under their literal tags. |
| `IpcForms.DeltaWritten` | src/lazily/_delta_wire_gen.py:442-448 | A delta with its literal names. |
| `IpcForms.SnapshotWritten` | src/lazily/ipc.py:503-510 | A snapshot with its literal names. |
| `IpcForms.SyncWritten` | src/lazily/ipc.py:685-690 | A sync frame with its literal names. |
| `IpcForms.CrdtOpWritten` | src/lazily/ipc.py:645-655 | A plane operation with its literal names. |
| `IpcForms.StampWritten` | src/lazily/ipc.py:594-600 | A stamp with its literal names. |
| `IpcForms.MessagesWritten` | src/lazily/ipc.py:821-836 | Each of the five messages under its literal tag; an empty one is refused. |
| `IpcForms.StrictReaders` | src/lazily/_delta_wire_gen.py:85-467 | What the readers of deltas accept: a dictionary with no undeclared key, every value well typed, every number within 64 bits. |
| `IpcForms.OneKnownVariant` | src/lazily/_delta_wire_gen.py:85-112 | An accepted operation is one dictionary entry, under the tag of the operation it is read as. |
| `IpcForms.MissingListsAreEmpty` | src/lazily/ipc.py:512-518 | A snapshot or sync frame without its lists reads as one with empty lists; a sync frame has to be a dictionary. |
| `IpcForms.DefaultsRead` | src/lazily/_wire_scalars.py:140-284 | A missing or null key or backend reads as the default one, the default backend may be named, and a frontier mark may have more than two parts. |
| `IpcForms.DeltaNeedsOps` | src/lazily/_delta_wire_gen.py:450-467 | A delta without its list is refused. |
| `IpcForms.KeyValidIff` | src/lazily/_wire_scalars.py:112-122 | A node key is at most 32 parts between slashes, none of them empty, in at most 1024 bytes. |
| `BlobArena.Fnv1a64` | src/lazily/ipc.py:225-230 | The loop computes the 64-bit hash of the payload. |
| `BlobArena.XorBits` | src/lazily/ipc.py:225-230 | A bit of the exclusive or is set if and only if the two bits differ. |
| `BlobArena.HashOfA` | src/lazily/ipc.py:225-230 | The hash of nothing and the published hash of "a". |
| `BlobArena.HeaderLayout` | src/lazily/ipc.py:233-246 | The forty bytes field by field, least significant byte first. |
| `BlobArena.HeaderReads` | src/lazily/ipc.py:233-264 | A header that was written is read back as its descriptor. |
| `BlobArena.StandingBlobReads` | src/lazily/ipc.py:345-407 | Over any run of writes, refused ones included, a blob that no later write touched is read back whole by the descriptor its write returned; a write refused for its epoch touches forty bytes. |
| `BlobArena.RefusedKeepsIff` | src/lazily/ipc.py:233-382 | In any reachable arena a refused write keeps a standing blob readable if and only if it was not refused for its epoch or the blob does not meet the forty bytes at the place the write would have taken. |
| `BlobArena.RefusedEpochLosesBlob` | src/lazily/ipc.py:233-382 | A hundred bytes, a write of fifty, and a write of nothing at epoch -1: the second is refused and the first blob is then rejected by generation. |
| `BlobArena.TornUnreadable` | src/lazily/ipc.py:233-407 | A blob whose front lies in a torn header is never read again, wherever in its header the torn one begins. |
| `BlobArena.FittingEpochsLeaveBlobs` | src/lazily/ipc.py:345-382 | As long as every epoch fits 64 bits, only blobs are left in the buffer, so nothing but a later blob can cost a blob. |
| `BlobArena.StandingDisjoint` | src/lazily/ipc.py:345-382 | Two blobs, or torn headers, that both still stand do not share a byte. |
| `BlobArena.OverwritesFromTheHead` | src/lazily/ipc.py:345-382 | Generations are unique, and the first later write that touches a blob, refused or not, covers its first header byte. |
| `BlobArena.StaleDescriptorRefused` | src/lazily/ipc.py:384-407 | Where the new blob starts at the old one, the old descriptor is refused by generation. |
| `BlobArena.WriteAnswers` | src/lazily/ipc.py:345-382 | When a write is refused, in the order of the checks; otherwise the blob begins at the cursor unless it would reach past the end, and the cursor moves right behind it. |
| `BlobArena.FirstRoundKeepsAll` | src/lazily/ipc.py:345-407 | Writes that fit between the cursor and the end lie one behind the other, all stand, and all are read back. |
| `BlobArena.ReadsIff` | src/lazily/ipc.py:384-407 | A descriptor is read if and only if it lies in the buffer, the header there is its own, and the payload behind it has its checksum. |
| `BlobArena.RefusedFor` | src/lazily/ipc.py:384-407 | Which check refuses a descriptor, for each kind of error. |
| `BlobArena.CorruptionRefusedIff` | src/lazily/ipc.py:400-407 | A standing blob whose payload was overwritten is refused with both checksums, unless the two payloads hash alike. |
| `BlobArena.RunSound` | src/lazily/ipc.py:345-382 | In every run every standing blob is intact with the cursor beside it, and generations start at one and are used once. |
| `BlobArena.OpenArena` | src/lazily/ipc.py:301-325 | An arena is made exactly over a buffer that holds a header. |
| `BlobArena.ShmBlobArena.Store` | src/lazily/ipc.py:374-376 | The copy changes exactly its own stretch of the buffer. |
| `BlobArena.ShmBlobArena.WriteBlob` | src/lazily/ipc.py:345-382 | New buffer, cursor, generation and descriptor, or the error, are those of the specification; a refused write may have wrapped the cursor or used a generation, and an epoch out of range has left the front of a header followed by zeros. |
| `BlobArena.ShmBlobArena.ReadBlob` | src/lazily/ipc.py:384-407 | The payload, or the first check that fails: bounds, header, each descriptor field, checksum. |
| `AsyncEffects.StepSound` | src/lazily/async_effect.py:129-184 | With one flush at a time, every step of every interleaving keeps: all cleanups but the last have ended, and one place holds the last until it has. |
| `AsyncEffects.RunsUnfold` | src/lazily/async_effect.py:129-184 | Every run with one flush at a time is an interleaving of the kind in which flushes may overlap, and ends in the same state. |
| `AsyncEffects.StartedAtMostOnce` | src/lazily/async_effect.py:141-184 | In every interleaving, overlapping flushes included, each cleanup is started at most once and ends at most as often. |
| `AsyncEffects.BodyAfterCleanups` | src/lazily/async_effect.py:141-172 | With one flush at a time, while a body runs every cleanup returned so far has ended; none overlaps a body, and the previous one finished first. |
| `AsyncEffects.DisposedRunStays` | src/lazily/async_effect.py:174-184 | After disposal no step of any interleaving revives the effect, and no body starts. |
| `AsyncEffects.NothingLeftUnrun` | src/lazily/async_effect.py:141-184 | With one flush at a time, when the effect is disposed and every call has finished, every cleanup a body ever returned has run to its end. |
| `AsyncEffects.EndedOrLost` | src/lazily/async_effect.py:141-184 | With overlapping flushes, it has then run to its end if and only if it was not lost. |
| `AsyncEffects.InvalidationReruns` | src/lazily/async_effect.py:129-172 | Whatever overlaps and whatever the effect was doing, an invalidation of a live effect is followed by a new body before nothing is pending and no flush is under way, unless the effect is disposed. |
| `AsyncEffects.FlushGoesOn` | src/lazily/async_effect.py:141-172 | A flush whose body was invalidated while it ran goes on when the body returns: with the next body, or with the cleanup the body left. |
| `AsyncEffects.FlushEndsIdle` | src/lazily/async_effect.py:141-172 | On a live effect a flush ends only when nothing is pending. |
| `AsyncEffects.EffectFollowsKernel` | src/lazily/async_effect.py:61-184 | With one flush at a time every step takes the effect where the kernel goes, event for event. |
| `AsyncEffects.SettledBetweenFlushes` | src/lazily/async_effect.py:129-184 | And between flushes the state field says where that is. |
| `AsyncEffects.NoneIsLost` | src/lazily/async_effect.py:141-184 | With one flush at a time no cleanup ever becomes unreachable before it is started. |
| `AsyncEffects.ReturnLosesIff` | src/lazily/async_effect.py:163-172 | In every reachable state of every interleaving, a body that returns makes some cleanup unreachable if and only if one is retained at that moment. |
| `AsyncEffects.BodyBesideCleanupIff` | src/lazily/async_effect.py:141-172 | In every reachable state of every interleaving, a step that starts a body leaves a cleanup running beside it if and only if some flush awaits a running one at that moment. |
| `AsyncEffects.BodyBeforeCleanupIff` | src/lazily/async_effect.py:141-172 | Such a step leaves a cleanup that can still be run but has not ended if and only if some flush awaits one, or a flush resumes while another cleanup is retained. |
| `AsyncEffects.OverlapRunsBodyDuringCleanup` | src/lazily/async_effect.py:141-172 | Cleanup before body does not survive overlap: three flush calls and their invalidations reach a state in which a body runs beside a running cleanup. |
| `AsyncEffects.OverlapLosesCleanup` | src/lazily/async_effect.py:141-172 | Two flushes whose bodies overlap lose the cleanup returned first. |
| `AsyncEffects.OverlapReachable` | src/lazily/async_effect.py:129-172 | Two calls to `flush` with an invalidation between them get there. |
| `AsyncEffects.LostStays` | src/lazily/async_effect.py:141-184 | A lost cleanup is never run, disposal included. |
| `AsyncEffects.InvalidateFollowsKernelIff` | src/lazily/async_effect.py:61-139 | `invalidate` moves the state as the kernel does if and only if no rerun is already queued behind a running cleanup. |
| `AsyncEffects.InvalidateLeavesKernel` | src/lazily/async_effect.py:61-139 | A run of six calls and resumptions after which `invalidate` reports the effect as scheduled where the kernel keeps it queued behind the cleanup. |
| `AsyncEffects.AsyncEffect.Invalidate` | src/lazily/async_effect.py:129-139 | The new state is that of the step; a disposed effect stays. |
| `AsyncEffects.AsyncEffect.FlushStart` | src/lazily/async_effect.py:141-172 | From the call to its first await. |
| `AsyncEffects.AsyncEffect.FlushContinue` | src/lazily/async_effect.py:141-172 | From the end of the awaited cleanup to the next await. |
| `AsyncEffects.AsyncEffect.FlushAfterBody` | src/lazily/async_effect.py:150-172 | From the end of the body to the next await. |
| `AsyncEffects.AsyncEffect.DisposeStart` | src/lazily/async_effect.py:174-184 | From the call to its first await. |
| `AsyncEffects.AsyncEffect.DisposeContinue` | src/lazily/async_effect.py:174-184 | From the end of the awaited cleanup on. |
| `AsyncSlots.KernelStaysWellFormedIff` | src/lazily/async_slot.py:66-127 | A step keeps a slot well formed if and only if it does not accept a completion that carries None; the revision never falls. |
| `AsyncSlots.KernelMovesIff` | src/lazily/async_slot.py:94-127 | Which events move a well-formed slot at all, and which advance its revision. |
| `AsyncSlots.ImageWellFormedIff` | src/lazily/async_slot.py:66-276 | The slot of the runtime is well formed by the kernel's measure if and only if it did not resolve to None. |
| `AsyncSlots.StepSound` | src/lazily/async_slot.py:183-276 | Every step of every interleaving of callers, drives, `invalidate` and `hard_clear` keeps the slot sound. |
| `AsyncSlots.ResolvedIsFresh` | src/lazily/async_slot.py:183-276 | A resolved slot holds the value of a finished computation spawned after the latest invalidation or hard clear. |
| `AsyncSlots.CompletionPublishesIff` | src/lazily/async_slot.py:243-276 | The end of a drive leaves state, revision, value, error and future alone if and only if its future was replaced; either way its own future is resolved. |
| `AsyncSlots.OneDrivePerRevision` | src/lazily/async_slot.py:183-276 | At most one unfinished drive was spawned at the current revision. |
| `AsyncSlots.WaitersAreServed` | src/lazily/async_slot.py:183-206 | The future a caller waits for is open exactly as long as its drive has not ended. |
| `AsyncSlots.ReturnsIff` | src/lazily/async_slot.py:183-206 | In every reachable state a caller returns `v` in its turn if and only if the slot is resolved with `v`, which a drive of the revision of that moment computed, and the future it waited for was not rejected. |
| `AsyncSlots.RaisesIff` | src/lazily/async_slot.py:183-276 | It raises `x` if and only if the future it waited for was rejected with `x`, which its own drive ended with. |
| `AsyncSlots.WaitsIff` | src/lazily/async_slot.py:183-206 | Otherwise it waits for an open future whose drive belongs to the current revision. |
| `AsyncSlots.CallersStay` | src/lazily/async_slot.py:183-206 | No other step touches a caller. |
| `AsyncSlots.FollowsKernelIff` | src/lazily/async_slot.py:94-276 | A step of the runtime is a step of the kernel, or none, if and only if it is not an invalidation of a failed slot. |
| `AsyncSlots.FutureGuardsRevision` | src/lazily/async_slot.py:243-276 | Revisions alone do not tell a stale completion: the kernel would accept one that the check of the future refuses. |
| `AsyncSlots.AsyncSlot.GetAsync` | src/lazily/async_slot.py:183-206 | From the call to its first await. |
| `AsyncSlots.AsyncSlot.GetAsyncContinue` | src/lazily/async_slot.py:183-206 | From the awaited future to the next await or the result. |
| `AsyncSlots.AsyncSlot.DriveStart` | src/lazily/async_slot.py:243-249 | A drive reads the revision when it first runs. |
| `AsyncSlots.AsyncSlot.DriveEnd` | src/lazily/async_slot.py:249-272 | Publish, fail or discard. |
| `AsyncSlots.AsyncSlot.Invalidate` | src/lazily/async_slot.py:208-221 | The new slot is that of the step, and sound. |
| `AsyncSlots.AsyncSlot.HardClear` | src/lazily/async_slot.py:223-231 | The new slot is that of the step, and sound. |
| `LatestDurable.StepSound` | src/lazily/latest_durable_projection.py:230-404 | Every transition keeps every entry sound. |
| `LatestDurable.NewestIsRetained` | src/lazily/latest_durable_projection.py:230-404 | In every reachable state `durable_through < inflight.epoch < desired.epoch` for those present, work in flight carries the current generation, and the newest accepted revision is pending, in flight or durable. |
| `LatestDurableOffers.AcceptedIff` | src/lazily/latest_durable_projection.py:230-265 | A desire is accepted if and only if its epoch exceeds what is durable, in flight and pending; it is then the pending one, and nothing else changes. |
| `LatestDurableOffers.RefusedIff` | src/lazily/latest_durable_projection.py:230-265 | The exact condition of every refusal, and what it reports. |
| `LatestDurableOffers.AcceptedAreRecords` | src/lazily/latest_durable_projection.py:230-404 | Over any run the accepted revisions of a key are the offers that exceeded every earlier one, whatever was claimed, acknowledged, failed or fenced between them. |
| `LatestDurableOffers.NewestOfferIsKept` | src/lazily/latest_durable_projection.py:230-404 | An offer that exceeds all earlier ones is pending, in flight or durable from then on, until a greater one comes. |
| `LatestDurableOffers.RoundSettles` | src/lazily/latest_durable_projection.py:267-404 | From every reachable state one reconnect, claim and acknowledgement makes the newest accepted revision durable. |
| `LatestDurableOffers.ClaimedIff` | src/lazily/latest_durable_projection.py:267-302 | What a claim answers, and that the revision it hands out is the pending one. |
| `LatestDurableOffers.AckedIff` | src/lazily/latest_durable_projection.py:304-342 | What an acknowledgement answers: it advances if and only if it names the attempt in flight. |
| `LatestDurableOffers.FailedIff` | src/lazily/latest_durable_projection.py:344-368 | A failed attempt is pending again if and only if no newer desire waits; else the newer one stays. |
| `LatestDurableOffers.ReconnectedCounts` | src/lazily/latest_durable_projection.py:370-404 | The requeued are the attempts with nothing waiting behind them, the superseded those with a newer desire, and the newest revision of every key is kept. |
| `LatestDurableOffers.StaleReconnectsIdle` | src/lazily/latest_durable_projection.py:370-387 | An older or equal generation changes nothing and is told the current one. |
| `LatestDurableOffers.OrderIsFirstOffers` | src/lazily/latest_durable_projection.py:194-265 | The snapshot lists the keys in the order in which they were first offered. |
| `LatestDurable.ClaimHandsNewest` | src/lazily/latest_durable_projection.py:267-302 | A claim hands out the newest accepted revision under the current generation. |
| `LatestDurable.AckAdvances` | src/lazily/latest_durable_projection.py:304-342 | An acknowledgement that changes anything advances `durable_through` to its epoch. |
| `LatestDurable.DurableNeverFalls` | src/lazily/latest_durable_projection.py:230-404 | Over any run `durable_through` never falls and is never forgotten. |
| `LatestDurable.GenerationNeverFalls` | src/lazily/latest_durable_projection.py:370-404 | Nor does the generation. |
| `LatestDurable.FencedAnswersIdle` | src/lazily/latest_durable_projection.py:267-368 | A claim, acknowledgement or failure of a fenced generation changes nothing, whatever happened since, and is told the current one. |
| `LatestDurable.ChangedIff` | src/lazily/latest_durable_projection.py:194-404 | The change flag is set if and only if the snapshot changed. |
| `LatestDurableCores.EntryRecord.UpsertDesired` | src/lazily/latest_durable_projection.py:230-265 | The record and the verdict for a new desire: accepted, unchanged, durable already, stale or conflicting. |
| `LatestDurableCores.LatestDurableProjectionCore.UpsertDesired` | src/lazily/latest_durable_projection.py:230-265 | New core, verdict and flag; the entry is made when missing. |
| `LatestDurableCores.LatestDurableProjectionCore.ClaimLatest` | src/lazily/latest_durable_projection.py:267-302 | New core, verdict and flag. |
| `LatestDurableCores.LatestDurableProjectionCore.AckApplied` | src/lazily/latest_durable_projection.py:304-342 | New core, verdict and flag. |
| `LatestDurableCores.LatestDurableProjectionCore.FailRetryable` | src/lazily/latest_durable_projection.py:344-368 | New core, verdict and flag. |
| `LatestDurableCores.LatestDurableProjectionCore.ReconnectSink` | src/lazily/latest_durable_projection.py:370-404 | New core, counts of requeued and superseded attempts, and flag; an older or equal generation is refused. |
| `LatestDurableCores.LatestDurableProjectionCore.TakeAllBack` | src/lazily/latest_durable_projection.py:387-398 | The loop takes every attempt in flight back, and its two counts are the numbers of those requeued and superseded. |

## Left out

- TreeAntiEntropy.DeliveriesConverge: covers creates, deletes and reorders with ids that name one op and counters from 1; convergence of concurrent splits, merges and text edits is not stated, because these read the text as it is when applied. For one writer, `TreeFollowers.FollowerCatchesUpIff` covers splits and merges.
- TreeMinting.ExchangeRendersAlike: covers creates and moves at slots whose neighbours have different fractions; between equal fractions the key lands behind both (`FractionalKeys.EqualEndsFallThrough`). For splits `TreeMinting.MintedKeyIsOwn` and `TreeMinting.ActedOwned` say whose the key is.
- TreeAgreement.SameKnownSameRender: asks for different sort keys among live siblings; without them the records still agree, and `TreeAgreement.ChildrenAgreeIff` says when the order does.
- LosslessTreeCrdts.LosslessTreeCrdt.SplitLeafAt: byte offsets are converted by the widths of the characters; a text that UTF-8 cannot encode, with a lone surrogate, is not modelled.
- LosslessTreeCrdts.LosslessTreeCrdt.SortRecords: an insertion sort stands in for the library's stable sort, as in `SortOps` and `Frames.Sort`.
- IngressDelivery.ArrivalOrderIrrelevant: leaves out drop-oldest, closes and higher generations, which `IngressDelivery.StepConservedIff` shows to lose or to restart.
- IngressCores.IngressCore.Admit: the receipt and the readers to invalidate are not part of this model. The occupancy flag of the window is an option type.
- IngressCores.IngressCore.Open: the readers to invalidate are not part of this model.
- IngressCores.IngressCore.Suspend: the readers to invalidate are not part of this model.
- IngressCores.IngressCore.Reconnect: the readers to invalidate are not part of this model.
- IngressCores.IngressCore.Close: the readers to invalidate are not part of this model.
- IngressCores.IngressCore.Drain: the readers to invalidate are not part of this model.
- IngressCores.IngressCore.Tick: the readers to invalidate are not part of this model.
- IngressCores.IngressCore.Fail: the receipt, the readers to invalidate, retry, backoff and readiness are not part of this model.
- CrdtPlaneRuntimes.CrdtPlaneRuntime.ApplyOp: family materialisation is not part of this model.
- CrdtPlaneRuntimes.CrdtPlaneRuntime.ApplySync: family materialisation is not part of this model, and the frontier of a frame is a map, so a list that names a peer twice is not modelled.
- CrdtProtocol.EveryReplicaHonest: frontiers travel as maps and families are not part of this model, as above.
- IpcRoundTrip.CodecRoundTrip: valid UTF-8 is a parameter that accepts the names of the wire; texts are byte sequences. Fields of the wrong type, which the hand-written `from_wire` methods pass on unchecked, are refused here.
- IpcRoundTrip.WireRoundTripIff: the range check of deltas is 64 bits as in the code; snapshots and sync frames have none on this side, so theirs comes from MessagePack alone.
- CanonicalBytes.CanonSameIff: floats appear as their hexadecimal text, and records and enumerations by their qualified name, as the code writes them; values without an encoding are not in the data type.
- CanonicalBytes.IntTextInjective: integers of any size have a text; under the default limit of CPython, `repr` of one with more than 4300 digits raises instead.
- AsyncEffects.StepSound: allows one call of `flush` at a time, which the code does not enforce; `AsyncEffects.StartedAtMostOnce`, `AsyncEffects.DisposedRunStays`, `AsyncEffects.EndedOrLost` and `AsyncEffects.ReturnLosesIff` say what overlapping calls keep and lose.
- AsyncSlots.StepSound: cancellation of tasks is not part of this model.
- LatestDurable.StepSound: epochs and generations are natural numbers; the error for a negative one is left out.
- BlobArena.ShmBlobArena.WriteBlob: views into the buffer are copied; a view that outlives a later write is not modelled.
- `TextCrdt`: a leaf is its text; text edits (`LeafEdit`, `edit_leaf`) are left out.
- `LosslessTreeCrdt.fork`, the JSON form of trees, messages and keyed maps, and the UTF-8 codec are left out.
- `KeyedOrder.get`, `contains`, `keys` and `length` would only add easy members.
- Digests (BLAKE2b), the replay harness and checkpoint comparison are left out.
- Reactive shells, leases, rate shaping, queues, relays, registers, command projection, permissions and capability negotiation are left out.
- Threads, locks, transports, foreign-function bindings and build scripts are left out.

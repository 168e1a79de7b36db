# PrisKV verification

A Dafny model of PrisKV: the server's two allocators and the key-value store built on them, the
step protocols around the store (tiering turns, work queue, client slots, cluster map swap), and
the data transformations (KEYS wire format, schema codec, tier chain, scatter-gather splitter,
reference-aware LRU policy). Check it with `dafny verify dfyconfig.toml`.

## How it is laid out

| component | files | form |
|---|---|---|
| Buddy allocator | `Powers`, `BuddyTree`, `Buddy` | a class over the flat metadata array, with the descent and climb loops |
| Slab allocator | `Slab` | a class over the bitmap words |
| Clock | `Clock` | functions with 64-bit wrap and truncating division |
| Key-value store | `KvState`, `KvOps`, `KvRuns`, `KvRefine`, `KvMarks`, `KvPins`, `KvExpiry`, `KvTurn`, `Recency`, `Kv` | state functions and run lemmas; the class `Kv.Store` owns both allocators and is proved equal to the state functions |
| Tiering turns | `Tiering`, `TieringEnds` | state machine over any number of requests and threads |
| Work queue | `WorkQueue` | state machine over any number of producers and one consumer |
| Client slots | `ClientSlots`, `ClientHistory` | state functions, run lemmas, and the class `Conn` |
| Cluster client | `ClusterMap`, `Cluster`, `ClusterAnswers`, `ClusterClient` | slot table and hash tag, protocol state functions and run lemmas, and the class `Client` |
| Wire and data | `KeysWire`, `KvKeys`, `Codec`, `TierChain`, `FreeUp`, `Sgl`, `LruPolicy`, `LruCounts` | loops and classes proved against recursive definitions |

The main results, each over every input or every run:

- **Buddy.** The whole metadata array is a function of the set of live blocks (`MetaUnique`,
  `MetaMeaning`); allocation returns the lowest free aligned run or fails exactly when there is
  none; free finds the exact node; allocate-then-free and free-everything restore the array.
- **Store.** One invariant holds in every reachable state: chains and LRU list hold the same
  nodes, each key once and in its bucket; `refcnt` is table membership plus open GETs; slab and
  buddy hold exactly the nodes in the table or pinned. The references are the GETs answered and
  not yet ended, counted from the calls and their answers, and no slot or block is given out while
  one is open. When a key stops being answered after SET or EXPIRE is stated in microseconds of the
  clock. The store refines a plain list of entries in recency order. SET evicts the fewest least
  recent keys, at most 129, and its success has an exact condition. KEYS returns exactly the
  matching entries of that list, once each.
- **Protocols.** Mutual exclusion, first-in first-out turns, one exit per request, every wait
  ends, and which events end each kind of request; no lost wake-up and each work once, in order,
  with progress; one request per client slot, which it leaves if and only if both its completions
  arrived since it took the slot; the cluster map is swapped only when nothing is in flight, every
  queued request goes once to its key's new owner, and an answer is reported at once if and only if
  it is OK or no update is on.
- **Transformations.** KEYS decodes to exactly the matching pairs with at most one retry; the
  codec round trip holds if and only if the value is clean; a chain of tiers reads like its last
  tier; making room in a tier evicts the fewest idle keys and has an exact condition; the cache
  policy evicts exactly the oldest key whose references, counted from the calls, are back at zero; the RDMA
  operations tile the value if and only if the list is `Exact`.

## Where the code falls short of the plain statement

Each is kept as the code has it, with the exact condition proved.

- `priskv_buddy_create` accepts 2^31 blocks, but `nmemb * 2` wraps to 0 in 32 bits and every node
  is 0: the array is right exactly up to 2^30 blocks (`Buddy.InitMeta`).
- A SET of length zero, which a tiering GET with an empty list makes (server/rdma.c:1355, 928),
  always fails, and evicts the 129 least recent keys first (`KvRuns.SetOfNothing`). The buddy
  descent for size zero ends at the spare word after the tree (`Buddy.Allocator.Descend`).
- With a timeout of at most 2^63 ms an expiry is never early and at most 1 ms late; within that
  millisecond it fires exactly when the second has changed. A longer timeout, which the request's
  64-bit field allows, makes the difference wrap: the key is expired the moment it is set
  (`Clock.ExpiryBound`, `Clock.ExpiredAtOnce`, `Clock.FarTimeout`).
- SET takes no reference, so its SET-end clears the in-process mark of whatever node is at the slot
  by then. A value can be answered before its own SET has ended if and only if its slot was given
  out while an earlier SET on it was still to end (`KvMarks.ReissueIff`); `KvMarks.EarlyAnswer` is
  such a run, and `KvMarks.FoundEnded` says it cannot happen to callers that end first.
- The callback of a tiering GET asserts that it finds the node the GET stored. That holds if and only
  if no call in between took the node out of the table and nobody let it expire
  (`KvTurn.TurnIff`). A FLUSH does, and so does a SET of another key that evicts it and may get its
  slot (`KvTurn.FlushBetween`, `KvTurn.SetBetween`).
- The chunk loop tiles the value if and only if the list is `Exact`: when a list is longer than the
  value, segments after the value's end still post operations, and a value over 1 GiB can overshoot
  (`Sgl.TilesIff`, `Sgl.LongList`). SET takes its length from the list modulo 2^32, and tiles if and
  only if the sum did not wrap (`Sgl.SetTiles`, `Sgl.SetWraps`). A segment that starts at 4 GiB or
  later and moves bytes is misplaced (`Sgl.PostsAligned`).
- A tier's cache stores the reader's whole buffer: with a buffer longer than the value, the chain
  stays coherent exactly when nothing is cached (`TierChain.GetLonger`, `TierChain.LongBuffer`). A
  SET or DELETE whose driver call fails part way leaves stale upper tiers exactly as
  `TierChain.SetFailed` and `TierChain.DelOutcome` say.
- A null string, a required field that the ignore rule drops, or an array of 2^31 elements or more
  does not survive the codec (`Codec.RoundTrip`, `Codec.NullString`, `Codec.DroppedRequired`,
  `Codec.TooMany`).
- The timer of the cluster client ends the process exactly when the new metadata has a node that
  cannot be connected, overlaps, is out of range, or has no owner for a queued key
  (`Cluster.TimerOk`, `Cluster.NoOwner`): the load asserts, and the retry loop uses the NULL request
  it was just given. For a negative range start the source has no assert and writes before its table;
  the model counts that as the end of the process too.
- A deferred tick starts an update, and only a later tick that still brings newer metadata ends it:
  the queue empties if and only if some tick does so with nothing in flight (`Cluster.EmptiesIff`).
  Metadata that becomes unavailable, or older, leaves every request queued (`Cluster.Stalls`).
- Making room in a tier stops at the first file that cannot be unlinked, whose key the policy has
  already dropped (`FreeUp.FreedExact`).

## Model

| member | source | states |
|---|---|---|
| Powers.Pow2Test | include/priskv-utils.h:68 | the mask test passes exactly for zero and the powers of two |
| Powers.RoundUpLeast | server/buddy.c:51-54 | rounding gives the least power of two at or above the argument |
| BuddyTree.NodeOffset | server/buddy.c:159 | the offset formula gives each tree node's first unit, inside the region |
| BuddyTree.Laminar | server/buddy.c:45-47 | two overlapping nodes lie one under the other |
| BuddyTree.BlockNode | server/buddy.c:45-47 | every aligned power-of-two run is a node of the tree |
| BuddyTree.MetaUnique | server/buddy.c:81-87 | the metadata array is determined by the set of live blocks |
| BuddyTree.MetaMeaning | server/buddy.c:81-87 | live nodes hold 0, nodes below them their full size, and every other node the size of the largest free aligned run under it |
| BuddyTree.FullIsFree | server/buddy.c:142-152 | a node that shows its full size is wholly free |
| BuddyTree.FreeIsFull | server/buddy.c:142-152 | a wholly free node shows its full size |
| BuddyTree.MetaWitness | server/buddy.c:146-152 | a node that shows at least s has a free run of size s under it |
| BuddyTree.Allocated | server/buddy.c:158 | zeroing the chosen node leaves only its parent to recompute |
| BuddyTree.Released | server/buddy.c:196-198 | restoring the node's size leaves only its parent to recompute |
| BuddyTree.Repaired | server/buddy.c:200-212 | recomputing one parent moves the only wrong entry one level up |
| Buddy.FirstRunIsLowest | server/buddy.c:142-159 | the reference scan returns the lowest free aligned run, or none exists |
| Buddy.AlignUp | server/buddy.c:134-140 | the units reserved are the least power of two covering the request, and none for an empty one |
| Buddy.UnitsEnough | server/buddy.c:134-140 | the reserved units hold at least the requested bytes |
| Buddy.UnitsLeast | server/buddy.c:134-140 | no smaller power of two would do |
| Buddy.RepresentableIff | server/buddy.c:134-140 | the rounding stays within 32 bits for every size unless units are one byte and the size is over 2 GiB |
| Buddy.FillMeta | server/buddy.c:81-87 | the fill loop gives every node the size of its row and leaves the spare word alone |
| Buddy.InitMeta | server/buddy.c:56-87 | with 32-bit wrap the initial array is right up to 2^30 units and all zero at 2^31 |
| Buddy.Allocator.constructor | server/buddy.c:56-90 | an empty valid allocator |
| Buddy.Allocator.Alloc | server/buddy.c:128-171 | returns exactly the lowest free aligned run of the rounded size, or nothing and no change, as for size zero; the array stays the one of the live set |
| Buddy.Allocator.Descend | server/buddy.c:146-156 | the descent ends at a free node of the wanted size with no free run before it; for size zero it ends at the spare word, so only then the zero test after it fires |
| Buddy.Allocator.ClimbMax | server/buddy.c:161-164 | taking the maximum of the children up to the root restores the array of the live set |
| Buddy.Allocator.Holder | server/buddy.c:186-194 | the climb to the first zero finds exactly the live block holding the address, or there is none |
| Buddy.Allocator.Free | server/buddy.c:173-216 | removes the block that holds the address; changes nothing when none does |
| Buddy.Allocator.ClimbJoin | server/buddy.c:200-212 | joining free buddies up to the root restores the array of the live set |
| Buddy.Allocator.AddressRoundTrip | server/buddy.c:165-184 | address and unit offset convert back and forth |
| Buddy.FreeAtStart | server/buddy.c:186-198 | freeing a block's own address frees that block and no other |
| Buddy.FreeAtHolder | server/buddy.c:186-198 | any address inside a block names that block |
| Buddy.AllocThenFree | server/buddy.c:128-216 | allocate then free restores live set, array and in-use count |
| Buddy.FreeAll | server/buddy.c:173-216 | freeing every live block in any order empties the live set |
| Buddy.Drain | server/buddy.c:173-216 | and gives back the initial array and a zero in-use count |
| Slab.WordFree | server/slab.c:108-119 | the lowest set bit of a word is its lowest free object; a zero word has none |
| Slab.FirstFree | server/slab.c:135-169 | the first free index of a range, or the range is full |
| Slab.Pick | server/slab.c:135-169 | the first free object from the cursor on, or else from the start; nothing only when every object is in use |
| Slab.Allocator.constructor | server/slab.c:60-98 | all objects free, cursor at 0 |
| Slab.Allocator.MarkAll | server/slab.c:86-95 | exactly the bits of existing objects are set |
| Slab.Allocator.FindWord | server/slab.c:144-163 | the first word with a free bit; everything before it is in use |
| Slab.Allocator.Alloc | server/slab.c:135-169 | the object the cursor search picks becomes used; failure changes nothing |
| Slab.Allocator.TakeFrom | server/slab.c:108-119 | takes a free object of the word, clears its bit and counts it |
| Slab.Allocator.Free | server/slab.c:187-201 | exactly the freed object becomes free |
| Clock.AddMsExact | include/priskv-utils.h:234-239 | adding milliseconds is exact and normalised for every 64-bit timeout |
| Clock.ExpiredAt | include/priskv-utils.h:229-232 | when the truncated and wrapped difference counts as expired, in microseconds |
| Clock.ExpiryBound | server/kv.c:302-309 | for every 64-bit timeout t set at T: expired from T+t+1 ms on, in the millisecond before exactly when the second differs, and at or before T+t exactly when the difference wraps |
| Clock.NeverEarly | server/kv.c:302-309 | from its setting on, a timeout of at most 2^63 ms never expires early |
| Clock.ExpiredAtOnce | server/kv.c:469-475 | a key is expired the moment it is set exactly when its timeout is over 2^63 ms |
| Clock.FarTimeout | server/kv.c:469-475 | a timeout of 0xC000000000000000 ms is expired at once |
| KvState.EmptyInv | server/kv.c:158-213 | the new store satisfies the invariant |
| KvState.DropSetInv | server/kv.c:277-291 | taking any set of keys out of the table keeps the invariant |
| KvState.DropSetTwice | server/kv.c:277-291 | removals compose |
| KvState.PinInv | server/kv.c:270-275 | taking a reference keeps the invariant |
| KvState.UnpinInv | server/kv.c:394-403 | ending a GET keeps the invariant |
| KvState.TouchInv | server/kv.c:101-111 | moving a node to the head of the LRU list keeps the invariant |
| KvState.InsertInv | server/kv.c:405-414 | inserting a fresh node keeps the invariant |
| KvOps.FindListed | server/kv.c:311-351 | the bucket search finds a key if and only if a listed node has it |
| KvOps.EvictNext | server/kv.c:113-122 | each eviction removes the current tail |
| KvOps.EvictFrees | server/kv.c:433-465 | more evictions only free slots and blocks |
| KvOps.ServedIff | server/kv.c:433-465 | keeping a slot or block found earlier serves exactly when both are free now |
| KvOps.EvictionsBound | server/kv.c:433-465 | the retry loop stops at the first success, an empty list or 129 evictions |
| KvOps.SlotFirst | server/kv.c:433-465 | SET keeps the object that the slab gave after as few evictions as gave one |
| KvOps.BlockFirst | server/kv.c:433-465 | and the block that the buddy allocator gave likewise |
| KvRuns.StepInv | server/kv.c:311-741 | every call keeps the invariant |
| KvRuns.RunInv | server/kv.c:311-741 | the invariant holds after every run |
| KvRuns.SetInv | server/kv.c:417-503 | SET keeps the invariant, failed or not |
| KvRuns.NoLeak | server/kv.c:277-291 | slots in use are exactly the nodes in the table or pinned, and buddy units exactly their blocks |
| KvRuns.StepKept | server/kv.c:265-291 | a call leaves a value pinned by a GET untouched while a GET-end is still due |
| KvRuns.RunKept | server/kv.c:265-291 | over any run, a pinned value keeps its slot, block and length |
| KvRuns.SetKept | server/kv.c:417-503 | SET never reissues a pinned slot or block |
| KvRuns.SetOutcome | server/kv.c:417-503 | SET removes the fewest least recent keys, at most 129, and succeeds exactly when both allocators can then serve |
| KvRuns.SetSucceeds | server/kv.c:426-493 | with nothing pinned and at most 129 other keys, a SET that fits the region succeeds |
| KvRuns.SetOfNothing | server/kv.c:417-503 | a SET of length zero always fails, after evicting the 129 least recent keys or all of them |
| KvPins.PinsExact | server/kv.c:277-291 | over every run the references of a slot are the GETs answered with it and not yet ended, counted from the calls and their answers; its node counts one more while it is in the table |
| KvPins.UsedExact | server/kv.c:277-291 | over every run a slot is in use exactly while its node is in the table or a GET on it is open |
| KvPins.OpenKeeps | server/kv.c:358-403 | while a GET is open its node keeps key, block and length |
| KvPins.OpenNotGiven | server/kv.c:417-503 | between the answer of a GET and its GET-end no SET is given the slot or the block |
| KvPins.ReadersKept | server/kv.c:358-529 | a GET, then a DELETE of its key, then a SET of another: the SET gets another slot and block |
| KvExpiry.SetExpires | server/kv.c:468-475 | after a SET and its SET-end a GET is answered exactly until the timeout has passed by 1 ms, or by less with the second changed, or the difference wraps; with the largest timeout always |
| KvExpiry.ExpireExpires | server/kv.c:336-340 | after an EXPIRE of a live key likewise; with the largest timeout the old end stays |
| KvExpiry.ExpireDrops | server/kv.c:531-550 | an EXPIRE of a key past its end removes it |
| KvMarks.StepMark | server/kv.c:311-741 | a call changes a node's key or mark only by giving its slot to a new value, marked, or by a SET-end, which clears it |
| KvMarks.MarkExact | server/kv.c:468-514 | over every run a stored node belongs to the last SET given its slot, and is marked exactly while no SET-end on that slot has followed |
| KvMarks.FoundIff | server/kv.c:358-392 | a GET is answered exactly from a listed node with the key, unexpired and unmarked |
| KvMarks.ClearReads | server/kv.c:358-392 | a listed node is unmarked exactly when some GET is answered from it |
| KvMarks.ReadBack | server/kv.c:358-514 | after a SET and its SET-end a GET before the expiry is answered from that node, with the length that was set |
| KvMarks.EarlyIff | server/kv.c:505-514 | a listed value whose own SET has not ended is answered by some GET exactly when an earlier SET on its slot ended after it was stored |
| KvMarks.ReissueIff | server/kv.c:505-514 | some continuation answers a value before its own SET has ended if and only if its slot was given out while an earlier SET on it was still to end |
| KvMarks.FoundEnded | server/kv.c:358-392 | when every SET on a slot ends before the slot is given out again, a GET is answered only with a value whose own SET has ended |
| KvMarks.EarlyAnswer | server/kv.c:417-514 | SET a, DELETE a, SET b, SET-end of a: b is answered before its own SET-end, in every configuration |
| KvTurn.StepStored | server/kv.c:311-741 | but for a SET of the key, a node is under a key after a call exactly when it was before and the call kept it |
| KvTurn.StoredAtMiss | server/rdma.c:928-949 | the node a tiering GET stores is in the table when the backend is asked |
| KvTurn.TurnIff | server/rdma.c:843-850 | the assert of the callback holds if and only if no call in between took the node out of the table and it has not expired |
| KvTurn.FlushBetween | server/rdma.c:843-850 | a FLUSH in between: the lookup finds nothing |
| KvTurn.SetBetween | server/rdma.c:843-850 | a SET of another key in between, in a store of one node: the slot is that key's, and the lookup finds nothing |
| KvRefine.LookupView | server/kv.c:311-351 | the bucket search equals lookup in the plain recency list |
| KvRefine.Refines | server/kv.c:311-741 | every call acts on the recency list as the plain store does |
| KvRefine.RunRecency | server/kv.c:101-131 | in every reachable state list order is the order of last successful SET or GET, each key once |
| Kv.Store.constructor | server/kv.c:158-213 | an empty store over fresh allocators |
| Kv.Store.Deref | server/kv.c:277-291 | the last reference frees slot and block; otherwise only the count drops |
| Kv.Store.FindKey | server/kv.c:311-351 | finds the node, takes it out of its bucket when popping or expired, else takes a reference and may set a new expiry |
| Kv.Store.DelKey | server/kv.c:353-356 | removing an unhooked node equals dropping it from the state |
| Kv.Store.Get | server/kv.c:358-392 | new state and result equal the GET function, whose references and answers `KvPins.PinsExact`, `KvMarks.FoundIff` and `KvExpiry.SetExpires` state from the calls |
| Kv.Store.GetEnd | server/kv.c:394-403 | new state equals the GET-end function, which closes one open GET (`KvPins.PinsExact`) |
| Kv.Store.Set | server/kv.c:417-503 | new state and result equal the SET function, whose expiry, mark, victims and outcome `KvExpiry.SetExpires`, `KvMarks.MarkExact` and `KvRuns.SetOutcome` state |
| Kv.Store.Acquire | server/kv.c:433-465 | the retry loop evicts exactly as many keys as the state function says and holds the first slot and block found |
| Kv.Store.Retry | server/kv.c:441-464 | one turn evicts the tail and asks only for what is missing |
| Kv.Store.EvictTail | server/kv.c:113-122 | takes the least recent key out of table and list |
| Kv.Store.GiveBack | server/kv.c:494-502 | a failed SET returns what it had acquired |
| Kv.Store.SetEnd | server/kv.c:505-514 | new state equals the SET-end function |
| Kv.Store.Delete | server/kv.c:516-529 | new state equals the DELETE function; reports whether the key was there |
| Kv.Store.Expire | server/kv.c:531-550 | new state equals the EXPIRE function; reports whether a live key was there |
| Kv.Store.Flush | server/kv.c:658-702 | removes exactly the matching keys and returns their number |
| Kv.Store.FlushBucket | server/kv.c:676-694 | one bucket's matching keys are removed and counted |
| Kv.Store.Sweep | server/kv.c:704-741 | removes exactly the expired keys |
| Kv.SplitExpired | server/kv.c:719-729 | splits a chain into its expired nodes and the rest, in order |
| LruPolicy.EvictChoice | server/backend/policy_lru.c:77-98 | evicts the least recent key with no reference among the 128 oldest; otherwise nothing and no change |
| LruPolicy.StepInv | server/backend/policy_lru.c:59-139 | list and hash map hold the same keys, each once |
| LruPolicy.RunOrdered | server/backend/policy_lru.c:59-139 | over every trace, list order is the order of last access or reference |
| LruCounts.CountExact | server/backend/policy_lru.c:59-139 | over every trace a key's count is the references taken and not given back since it last entered, from the calls and the answers of evict |
| LruCounts.CountMoves | server/backend/policy_lru.c:114-139 | while a key stays cached its count moves by its try_refs minus its unrefs |
| LruCounts.HeldStays | server/backend/policy_lru.c:77-98 | a key with more try_refs than unrefs ever since is still cached and evict never returns it |
| LruCounts.EvictsUnheld | server/backend/policy_lru.c:77-98 | evict returns a key if and only if it is the least recent of the 128 oldest with no reference outstanding |
| LruPolicy.Policy.constructor | server/backend/policy_lru.c:46-57 | an empty policy |
| LruPolicy.Policy.Access | server/backend/policy_lru.c:59-75 | new state equals the access function |
| LruPolicy.Policy.Evict | server/backend/policy_lru.c:77-98 | the bounded backward loop equals the evict function |
| LruPolicy.Policy.DelKey | server/backend/policy_lru.c:100-112 | new state equals the delete function |
| LruPolicy.Policy.TryRefKey | server/backend/policy_lru.c:114-128 | a cached key gains one reference and becomes the most recent, and nothing else changes; otherwise nothing does; reports presence |
| LruPolicy.Policy.UnrefKey | server/backend/policy_lru.c:130-139 | a positive count drops by one; nothing else changes |
| Sgl.SizeOf | include/priskv-protocol-helper.h:145-155 | the sum of the lengths, modulo 2^32 |
| Sgl.PostSegment | server/rdma.c:649-677 | the inner loop posts exactly the chunks of one segment |
| Sgl.PostAll | server/rdma.c:646-681 | the nested loop posts exactly the chunks of all segments |
| Sgl.TilesIff | server/rdma.c:646-681 | for every list and value length the operations tile the value exactly once and in order if and only if the list is `Exact` |
| Sgl.SetTiles | server/rdma.c:1400-1418 | the length SET takes from the list tiles if and only if the sum of the lengths is below 2^32 |
| Sgl.SetWraps | server/rdma.c:1400-1418 | two segments of 2^31 and 2^31 + 8 bytes: 8 bytes are reserved and 1 GiB is moved to offset 2 GiB |
| Sgl.LongList | server/rdma.c:1368-1376 | two segments of 4 bytes for a value of 2: the second one is still filled |
| Sgl.PostsSplit | server/rdma.c:646-681 | all operations are those of the segments, one segment after the other, at wrapped offsets |
| Sgl.PostsAligned | server/rdma.c:652-680 | the operations of a segment have matching local and remote offsets inside it, at most 1 GiB each, if and only if it starts below 4 GiB or moves nothing |
| Sgl.PostCount | server/rdma.c:646-681 | at most one operation per segment plus one per GiB |
| Sgl.FewPosts | server/rdma.c:1336-1341 | a request of at most 8 segments posts at most 40 operations |
| Sgl.Work.constructor | server/rdma.c:623-681 | the 16-bit count of a request is the number of its operations |
| Sgl.Work.HandleRw | server/rdma.c:1238-1256 | the completion action runs exactly once, at the last completion |
| Tiering.NextInv | server/rdma.c:781-1149 | every handler and callback step keeps the turn invariant |
| Tiering.RunInv | server/kv.c:557-597 | the invariant holds in every interleaving |
| Tiering.MutualExclusion | server/kv.c:557-597 | at most one request per bucket has the turn, and a waiting one implies a holder |
| Tiering.FirstInFirstOut | server/kv.c:557-597 | turns are granted in order of entry |
| Tiering.ExitsOnce | server/rdma.c:781-809 | each request gives its turn up at most once, and exactly once by its end |
| Tiering.HandOver | server/kv.c:576-597 | an exit with waiters passes the turn to the first of them |
| Tiering.HolderCanMove | server/rdma.c:781-1149 | while a request waits some step of the holder is enabled |
| Tiering.WaitEnds | server/kv.c:557-597 | no step makes a waiting request wait longer, and every step of the holder brings its turn nearer |
| TieringEnds.Outcome | server/rdma.c:781-1149 | per command, which event ends a request, hands it to the backend, posts RDMA, or gives its turn up |
| TieringEnds.RunTells | server/rdma.c:781-1149 | over every run a request is finished, and has given its turn up, exactly if some event of its own did so, and waits for a callback only if some event asked for it |
| TieringEnds.TurnHeld | server/kv.c:557-597 | the turn is held from its grant until such an event, and no longer |
| TieringEnds.AnsweredByBackend | server/rdma.c:952-1124 | a finished DEL has had its own backend callback after its handler asked; a finished TEST likewise unless the answer was at hand |
| TieringEnds.SetAnswered | server/rdma.c:1006-1083 | a finished SET ended in its handler, or at its own RDMA completion after a post, or at a backend callback after that completion asked the backend |
| TieringEnds.GetAnswered | server/rdma.c:811-949 | a finished GET ended in its handler, or at a failing backend callback after its handler asked, or at its own RDMA completion after a post |
| WorkQueue.NextInv | lib/workqueue.c:68-96 | every producer and consumer step keeps order, saved node and signal |
| WorkQueue.RunInv | lib/workqueue.c:68-177 | in every interleaving works run once, in order, and queued work implies a signal or a producer about to signal |
| WorkQueue.RunOnce | lib/workqueue.c:68-96 | no work runs twice or out of submission order |
| WorkQueue.QuietMeansDrained | lib/workqueue.c:68-177 | when no step is left every submitted work has run |
| WorkQueue.ReturnsIffRan | lib/workqueue.c:143-163 | a synchronous call returns at its step exactly when its work has run to its end |
| WorkQueue.Progress | lib/workqueue.c:68-96 | every kick and consumer step brings the end nearer |
| WorkQueue.NotStuck | lib/workqueue.c:68-96 | unless all is quiet some such step is enabled |
| ClientSlots.FirstFree | client/rdma.c:332-348 | the first free slot, all before it busy |
| ClientSlots.EnterCore | client/rdma.c:1458-1467 | sending a new request keeps the invariant, with or without a free slot |
| ClientSlots.ReleaseCore | client/rdma.c:1548-1558 | freeing the head of the complete list frees its own slot, once |
| ClientSlots.CompleteOneInv | client/rdma.c:1548-1558 | one completion, with a callback that submits more or sends again, keeps the invariant |
| ClientSlots.PopInv | client/rdma.c:1529-1540 | a delayed request that finds no slot goes back to the head; otherwise it leaves first |
| ClientSlots.ArriveInv | client/rdma.c:1541-1598 | an arrival keeps the invariant: a request is on the complete list, once, exactly when both flags are set (`ClientHistory.FlagsExact` ties the flags to the steps) |
| ClientSlots.DelaySendSettles | client/rdma.c:1626-1630 | when the handler ends nothing is delayed or every slot is occupied |
| ClientSlots.NextInv | client/rdma.c:1423-1630 | every step keeps the invariant and the settled state |
| ClientSlots.RunSafe | client/rdma.c:1423-1630 | in every run no slot is shared, each is freed once per use, each request is called back once, delayed ones leave in order, and none waits beside a free slot |
| ClientSlots.HeldUntilBoth | client/rdma.c:1541-1598 | a request leaves its slot only when the handler ends and both flags are set |
| ClientHistory.FlagsExact | client/rdma.c:1541-1598 | over every run the flags of a request in a slot are exactly the arrivals of its response and of its send completion since it took the slot |
| ClientHistory.LeavesIffBoth | client/rdma.c:1541-1598 | a request leaves its slot at a step if and only if the step ends the handler and both have arrived since it took the slot; until then it stays in it |
| ClientHistory.BothThenDone | client/rdma.c:1548-1558 | once both have arrived the next handler end reports the request once, and submits what its callback asks for, or sends it again with neither flag |
| ClientSlots.Conn.constructor | client/rdma.c:295-312 | all slots free |
| ClientSlots.Conn.UnusedCommand | client/rdma.c:332-348 | the scan finds the first free slot |
| ClientSlots.Conn.ReqSend | client/rdma.c:1432-1467 | takes a slot or joins the delayed list as the send function says |
| ClientSlots.Conn.ReqDelaySend | client/rdma.c:1529-1540 | new state equals the delayed-send function |
| ClientSlots.Conn.ReqComplete | client/rdma.c:1548-1558 | new state equals the completion function |
| ClientSlots.Conn.HandleRecv | client/rdma.c:1560-1590 | sets the received flag of that request and nothing else, and completes it exactly if the send completion was there |
| ClientSlots.Conn.HandleSend | client/rdma.c:1592-1598 | sets the sent flag of the request in the slot and nothing else, and completes it exactly if the response was there |
| ClientSlots.Conn.HandleCqEmpty | client/rdma.c:1626-1630 | the end of the handler keeps the invariant and settles the delayed list |
| ClusterMap.SameTag | cluster/client/client.c:342-371 | keys with the same text between their first braces share a slot, the hash of that text modulo 4096 |
| ClusterMap.TagWhole | cluster/client/client.c:342-371 | without such text the whole key is hashed |
| ClusterMap.SlotCases | cluster/client/client.c:342-371 | the same of the slot function, both cases spelled out on the key |
| ClusterMap.KeyHashSlot | cluster/client/client.c:342-371 | the two scans give the hash modulo 4096, of the text between the first braces if there is one and of the whole key otherwise |
| ClusterMap.FillExact | cluster/client/client.c:250-301 | loading succeeds exactly on disjoint in-range slot ranges, and then each slot's owner is the node whose range holds it |
| ClusterMap.TableUnique | cluster/client/client.c:288-301 | the metadata determines the table |
| Cluster.SubmitInv | cluster/client/client.c:468-510 | submitting keeps reference counts, placement and queue |
| Cluster.CallbackInv | cluster/client/client.c:428-448 | a callback, with requests submitted inside it, keeps the invariant |
| Cluster.TimerOk | cluster/client/client.c:537-595 | the timer ends the process exactly when nothing is in flight and the newer metadata has a node that cannot be connected, overlaps, is out of range or leaves a queued key without owner |
| Cluster.NoOwner | cluster/client/client.c:577-589 | one queued request and metadata without slots end the process |
| Cluster.TimerSwaps | cluster/client/client.c:537-595 | the swap happens with nothing in flight, installs the described table and hands every queued request once, in order, to its key's new owner |
| Cluster.TimerInv | cluster/client/client.c:537-595 | the timer keeps the invariant |
| Cluster.NextInv | cluster/client/client.c:428-595 | every event keeps: refCount equals requests in flight, each in flight at its key's owner, each submission called back once or live |
| Cluster.Run | cluster/client/client.c:428-595 | the invariant holds after every run that has not ended the process |
| Cluster.NoStartWhileUpdating | cluster/client/client.c:484-510 | no request starts during an update |
| Cluster.SwapsOnlyIdle | cluster/client/client.c:537-573 | table and version change only at a tick with newer metadata and all counts zero |
| Cluster.QueueStep | cluster/client/client.c:428-595 | during an update the queue is emptied by a tick with newer metadata and nothing in flight, and by nothing else; until then it only grows and nothing starts |
| Cluster.CallbackDrains | cluster/client/client.c:428-448 | during an update every callback takes its request out of flight and starts none |
| Cluster.Stalls | cluster/client/client.c:537-560 | without such a tick an update never ends |
| Cluster.EmptiesIff | cluster/client/client.c:537-595 | within a run a non-empty queue empties exactly when some tick finds nothing in flight and brings newer metadata |
| ClusterAnswers.SubmitOutcome | cluster/client/client.c:468-510 | a submission without owner is reported at once; during an update it is queued last; otherwise it goes to the owner of its key's slot |
| ClusterAnswers.ReportedIff | cluster/client/client.c:428-448 | at every event a live request is reported, once, if and only if the event is its answer and the answer is OK or no update is on |
| ClusterAnswers.NewsSubmitted | cluster/client/client.c:445 | what the user submits inside that callback is submitted |
| ClusterAnswers.TickSends | cluster/client/client.c:537-595 | a tick hands over requests only at the swap, and then exactly the queue, in order, each to its key's owner in the new table |
| ClusterAnswers.UpdatingIff | cluster/client/client.c:544-573 | an update is on after an event exactly when a tick with newer metadata found requests in flight, or it was on and the event is not the swap |
| ClusterAnswers.NeverAgain | cluster/client/client.c:428-448 | a request that is not live and not submitted anew is never handed to a node or reported, over any run |
| ClusterAnswers.QueuedUntilSwap | cluster/client/client.c:438-443 | a queued request stays queued and unreported until the swap |
| ClusterAnswers.AnswerFate | cluster/client/client.c:428-448 | over every continuation: an answer that is OK or outside an update is reported at once and its request never handed out again; a failure during an update is not reported and waits in the queue until the swap |
| ClusterClient.Client.constructor | cluster/client/client.c:616-656 | the client after its first load |
| ClusterClient.Client.SlotAdd | cluster/client/client.c:196-203 | succeeds exactly on an empty slot in range |
| ClusterClient.Client.NodeLoad | cluster/client/client.c:250-275 | loads a node's ranges or fails exactly as the table function says |
| ClusterClient.Client.MetaDataLoad | cluster/client/client.c:288-301 | opens the nodes and computes the table of the metadata, or fails exactly when it cannot |
| ClusterClient.Client.NodeUnload | cluster/client/client.c:277-286 | clears exactly the node's slots |
| ClusterClient.Client.MetaDataUnload | cluster/client/client.c:303-312 | leaves the table empty |
| ClusterClient.Client.Request | cluster/client/client.c:468-510 | new state equals the submit function |
| ClusterClient.Client.RequestCallback | cluster/client/client.c:428-448 | an answer that is OK or outside an update is reported once and its request forgotten; a failure during an update is queued last and reported to nobody |
| ClusterClient.Client.RetryAll | cluster/client/client.c:577-594 | the retry loop equals the resubmit function |
| ClusterClient.Client.TimerHandler | cluster/client/client.c:537-595 | new state and outcome equal the timer function |
| KeysWire.ParseWire | client/rdma.c:1281-1319 | parsing what the server writes gives back the entries |
| KeysWire.HeaderBytes | server/kv.c:630-642 | the bytes of an entry: lengths in network order, a zero field, the key |
| KeysWire.InChainOrder | server/kv.c:616-655 | entries stand in the order of the chains |
| KeysWire.Encode | server/kv.c:616-655 | for sizes below 2^32, writes exactly the matching entries in chain order, or reports the exact length needed |
| KeysWire.CountKeys | client/rdma.c:1284-1299 | the counting pass ends at the length exactly on well-formed input, with the number of entries |
| KeysWire.Decode | client/rdma.c:1281-1319 | the two passes equal the parse function |
| KeysWire.ResizedEnough | client/rdma.c:1320-1327 | the resized buffer is a whole number of pages and holds the reported length and an eighth more |
| KeysWire.Keys | client/rdma.c:1281-1341 | for sizes below 2^32, the client gets exactly the matching pairs, with at most one retry, and none exactly when the first buffer is large enough |
| KvKeys.KeysAreView | server/kv.c:616-655 | KEYS on the store returns an entry exactly when it matches and the recency list shows it |
| KvKeys.KeysOnce | server/kv.c:616-655 | and no key twice |
| KvKeys.Keys | server/kv.c:599-656 | the client gets every matching entry of the store once, after at most one retry |
| Codec.RoundTrip | lib/codec.c:187-528 | coding succeeds and decoding gives the value back if and only if it is clean: null strings only in fields ignored and not required, no zero or empty array in fields ignored and required, arrays below 2^31 elements |
| Codec.TooMany | lib/codec.c:477-510 | an array of 2^31 elements or more, whose count is read as an int, never comes back |
| Codec.NullString | lib/codec.c:379-382 | a null string comes back empty |
| Codec.DroppedRequired | lib/codec.c:217-223 | a required number that is dropped makes decoding fail |
| Codec.DroppedIsZero | lib/codec.c:396-419 | a field the ignore rule drops is the zero the decoder starts from, exactly for arrays below 2^31 elements |
| Codec.CodedHolds | lib/codec.c:430-528 | the coded object holds each kept field under its own name |
| Codec.FieldWritten | lib/codec.c:396-528 | per type, what a field is written as: nothing if it is ignored and zero, null or empty, else its value |
| Codec.LastWins | lib/codec.c:430-528 | of several written fields of one name the last one stands |
| Codec.ScalarDecoded | lib/codec.c:117-174 | a scalar is decoded from JSON of its own type only; a number becomes the nearest its C type can hold |
| Codec.ShapesDecoded | lib/codec.c:187-275 | an object is decoded from an object only, an array from an array whose elements all decode, one by one |
| Codec.FieldsDecoded | lib/codec.c:187-275 | an object is decoded exactly when each field is, field by field |
| Codec.MissingField | lib/codec.c:217-223 | a missing field fails if required and else reads as zero, false, null or empty |
| Codec.CodeValue | lib/codec.c:363-387 | the per-type coders equal the code function |
| Codec.CodeObject | lib/codec.c:430-528 | the field loop equals the code function |
| Codec.CodeOne | lib/codec.c:465-515 | one field, by its kind, equals the code function |
| Codec.CodeArray | lib/codec.c:477-510 | with the count read as an int, the element loop equals the code function or fails on a negative count |
| Codec.DecodeValue | lib/codec.c:117-174 | the per-type decoders equal the decode function, errors included |
| Codec.DecodeObject | lib/codec.c:187-275 | the field loop equals the decode function, errors included |
| Codec.DecodeArray | lib/codec.c:239-263 | the element loop equals the decode function, errors included |
| TierChain.GetExact | server/backend/backend.c:227-301 | with a buffer no longer than the value a chained GET answers like the last tier and keeps the chain coherent |
| TierChain.GetFills | server/backend/backend.c:227-301 | a GET answers from the first tier whose value fits; every tier above loses what its policy evicted and, where room was found, caches the buffer; the others stay |
| TierChain.GetRefused | server/backend/backend.c:227-301 | without such a tier nothing changes and the last tier's refusal is the answer |
| TierChain.GetLonger | server/backend/backend.c:227-301 | with a longer buffer the chain stays coherent, and the reported length right, exactly when no tier caches |
| TierChain.LongBuffer | server/backend/backend.c:239-252 | a two-byte buffer for a one-byte value is cached whole |
| TierChain.TestLast | server/backend/backend.c:382-414 | TEST answers like the last tier |
| TierChain.SetOk | server/backend/backend.c:303-341 | SET succeeds exactly when every driver call does, and then the key is only in the last tier |
| TierChain.SetCoherent | server/backend/backend.c:303-341 | an OK SET keeps the chain coherent |
| TierChain.SetFailed | server/backend/backend.c:303-341 | the exact condition under which a failing SET leaves the chain coherent |
| TierChain.DelOutcome | server/backend/backend.c:343-380 | DELETE removes the key everywhere when all calls succeed; otherwise coherence has an exact condition |
| TierChain.RunCoherent | server/backend/backend.c:227-380 | over every run the chain is coherent and its last tier is a plain map |
| TierChain.RunReads | server/backend/backend.c:227-301 | a GET after any run answers like the plain map |
| FreeUp.EvictsFirst | server/backend/policy_lru.c:77-98 | the policy evicts the first of the idle keys from the old end, as long as fewer than 128 keys in use are older, and leaves the rest of that order |
| FreeUp.FreedExact | server/backend/backend.c:169-206 | making room ends, evicts only idle keys from the old end and no more than needed, and succeeds exactly when the free bytes and what it may evict before a file that cannot be unlinked are enough |
| FreeUp.Tier.constructor | server/backend/be_localfs.c:545-558 | a tier with the given free bytes and an empty policy |
| FreeUp.Tier.FreeUp | server/backend/backend.c:182-194 | the loop of callbacks equals the free-up function, a failing unlink included |

## Left out

- Recovery from stored nodes and the memory-file loader (server/kv.c:824-875, server/memory.c).
- Races inside one key-value call, such as the one noted at server/kv.c:416: each call is one step.
- RDMA verbs, connection set-up, failed posts and disconnects: completions are step inputs.
- Memory registration, threads, timers, HTTP, logging, ACLs, statistics and the command line.
- Concrete drivers, JSON text and the regex engine: maps, a JSON datatype and an arbitrary predicate.
- The CRCs: arbitrary functions. Hash and list libraries: maps and sequences.
- Addresses: blocks and nodes are offsets; `AddressRoundTrip` relates the two.
- Byte contents of stored values in the key-value store: a value is its block and length.
- `priskv_update_valuelen`, which rewrites a node's length alone, and the tiering GET that finds a value too big, whose reference is not ended (server/rdma.c:906-908).
- The tier chain takes the outcome of each tier's free-up as an input and holds for every outcome; `FreeUp` proves what it is for the local file driver.
- A region that is not zero-filled when it is mapped: the spare word after the buddy tree is zero.
- The width of an array's count in a struct (lib/codec.c:247 writes 64 bits, every schema of the repository declares 32): the model keeps the count with its array.
- Work-queue and tiering steps are on values: mutexes and condition variables appear as atomic steps.
- The KEYS busy mark of a client connection (client/rdma.c:1448-1456): KEYS requests are ordinary requests that may be sent again.
- Synchronous cluster calls (cluster/client/client.c:775-833), which bypass the reference count; several cluster clients in one process, which share one retry list; a build without asserts.
- Buddy.Allocator.Free: not the address one past the region, which the assert at server/buddy.c:187 admits and no caller has; the source then marks the spare word and reads past its array.
- Buddy.InitMeta: not zero units, for which the loop bound wraps; the server refuses zero and more than 2^30 units (server/server.c:248).
- ClusterMap.FillExact: a negative range start counts as a failed load, and so for Cluster.TimerOk and ClusterClient.Client.SlotAdd; the source writes before its table.
- Buddy.Allocator.Alloc: requires at most 2^31 units, because the source's shift is undefined beyond; only one-byte units and sizes over 2 GiB are outside (`RepresentableIff`).
- Kv.Store.Set: requires the same of the value length.
- KeysWire.Encode: requires sizes below 2^32, because the source's length has 32 bits; so do KeysWire.Keys and KvKeys.Keys.

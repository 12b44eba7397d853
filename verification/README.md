# nvHashMap, verified model

A Dafny model of the core of nvHashMap: the open-addressing hash map with its probe
sequences, sizing rules and bucket kernels, the set-associative cache, and the spin/wait
reader-writer mutex. `dafny verify dfyconfig.toml` checks everything.

## What is modelled

**The map** (`HashMap`, class `Map`) keeps three parallel arrays: one state per slot (a 7-bit
fingerprint, `EMPTY` or `TOMBSTONE`), the keys and the values. Bucket size and capacity are
arbitrary powers of two, the hash is arbitrary (`home` and `finger` of a key are any two
functions), the probe sequence is linear or quadratic with any alignment, and the kernel that
looks for a fingerprint in a bucket may report false positives. The class carries its table as
a value (`table`) beside the arrays, and a `Layout` that says which bucket a slot is in and in
which step each key comes to it; the proofs are about these values:

- `Slots`: the invariant that the code relies on and never writes down. For each live entry no
  bucket earlier on its probe path has an empty slot; a bucket with a tombstone has no empty
  slot; states are the fingerprints of the keys; without `duplicates` keys are unique. With it:
  both counters are exact and `num_empty >= grow_threshold >= 1`.
- `ProbeSeq`, `MapLayout`: one cycle of any probe sequence visits every bucket exactly once.
- `Probing`, `Listing`: searching, placing, enumerating. `Rebuild`: copying into new arrays.
  `Scrubbing`: the in-place rebuild. `Sifting`: erasing by predicate. `Conf`: capacities and
  the reserve of empty slots. `Dictionary`, `Runs`: the finite map behind a table, and whole
  runs of operations against it.
- `MultimapRuns`: whole runs of maps with duplicates against a multiset of entries.
- `OneSlotBuckets`, `RunawayChain`, with `Replay`: two runs from the constructor on to tables on
  which the code does not do what one would expect, with the exact conditions under which it does.

**Kernels and masks** (`Words`, `Kernels`, `Masks`, `Matchers`): words of any number of bytes
with ripple borrow and carry, proved to be arithmetic modulo 256^n; the word-parallel kernel
against the slot-by-slot one; masks with several bits to a slot against sets of slots; and the
proof that the map may use any of these kernels. `BitTricks` and `PopCount` are the portable
replacements for the bit-counting built-ins.

**The cache** (`LruCache`, class `Cache`, with `CacheTable`, `CacheResize`): states and LRU counters
interleaved in one array, insertion with eviction, scrubbing, resizing. `CacheRuns`: whole runs of
a cache are runs of a finite map that counts uses and may forget (`ForgetfulMap`).

**The mutex** (`Mutex`): a transition system of any number of threads with one step per load,
compare-and-swap, exchange, store, wait check and notification. Waiting is that of section
31.6 of ISO/IEC 14882:2020.

## Results that go against the code

- `scrub_` is safe for every valid table exactly when a bucket has at least two slots
  (`OneSlotBuckets.ScrubSafeExactlyForWideBuckets`). With one-slot buckets a pass that makes a
  single move may vacate a bucket that an entry visited earlier in the same pass lies beyond; the
  reclaim then makes it empty. `OneSlotBuckets.ScrubLosesAnEntry` drives a map from its constructor
  through four inserts, an erase and a scrub to a lookup that does not find a key the table still
  holds. The operations that may scrub therefore promise the invariant under `kernelSize >= 2`, or
  without automatic scrubbing; the entries themselves are never lost from the table.
- `find_next_` moves on from the last slot of a bucket without the test for an empty slot that
  it makes everywhere else. It then runs through all buckets exactly when that bucket has an
  empty slot and no other one does (`HashMap.Map.FindNext`). A map whose growth threshold is at least
  the bucket size never gets there (`HashMap.Map.FindEach`). `RunawayChain.ChainRunsAway` drives a
  map with duplicates and eight slots in buckets of two there: seven inserts, an erase, a scrub,
  an insert, `find_first_` and `find_next_`. The positions the chain has reported by then are
  complete. The model returns `Exhausted` where the code's assertion on the
  probe length would fail.
- One would want a sleeping writer to have somebody inside to wait for, a notification on its way
  to it, or another writer awake in `lock`. This holds in every run exactly if the mutex does not
  wait (`use_wait` off) or at most three threads use it (`Mutex.StrictExactlyForThreeThreads`). With
  four threads, whatever the number of spins, a `notify_one` may wake a reader instead of the
  writer, while the `notify_all` that this reader was still to get comes late and owes nothing to a
  thread that went to sleep after the change it announces (`Mutex.WriterLeftToAReader`). Nothing is
  lost even then: the reader that was woken is awake in `lock_shared` and notifies when it leaves,
  which is what `Mutex.NoLostWakeup` says for any number of threads.

## Modelling decisions

- Values move with their keys; `insert` leaves in its slot the value that was there, as the
  code does, and `operator[]` is `Put`, which then assigns it.
- `align_pos(x, mask)` with a contiguous mask is written as arithmetic (`ProbeSeq.Masked`).
- Probe sequences are passed by value in the code and are values here. The map is modelled with
  unbounded sequences; the cache's sequence ends after one bucket.
- Loops over the slots of old arrays that nothing modifies meanwhile are written as one loop
  over slots instead of one over buckets and one over masks; where a bucket is loaded once and
  then modified (scrub, erase, scrub of the cache) the model loads it once too.
- Erasing counts each slot as it is marked; the code adds the counts up and stores them once.
- An element of a new array has an arbitrary value until it is written.

## Model

| member | source | states |
|---|---|---|
| Slots.StoreKeeps | include/nvhashmap/map.hpp:697-713 | storing a key no later on its path than the first empty slot keeps the invariant and adds exactly that entry |
| Slots.VacateKeeps | include/nvhashmap/map.hpp:788-806 | marking a slot empty or tombstone by whether its bucket has an empty slot keeps the invariant and removes exactly that entry |
| ProbeSeq.TriDistinct | include/nvhashmap/probe_seq.hpp:184-238 | triangular numbers below a power of two are distinct modulo it |
| ProbeSeq.BucketIndex | include/nvhashmap/probe_seq.hpp:146-238 | closed form of the bucket probed in a step, for both sequences and every alignment |
| ProbeSeq.IndexDistinct | include/nvhashmap/probe_seq.hpp:146-238 | two steps of one cycle never probe the same bucket |
| ProbeSeq.Coverage | include/nvhashmap/probe_seq.hpp:146-238 | the first C/K masked offsets visit every bucket exactly once, for linear and quadratic, aligned or not, from any start |
| ProbeSeq.NarrowAlignmentIsUnaligned | include/nvhashmap/probe_seq.hpp:112-213 | an alignment of at most one bucket probes the same buckets as none |
| ProbeSeq.UnalignedPath | include/nvhashmap/probe_seq.hpp:146-213 | step `j` of an unaligned sequence is in the bucket `j`, or `j * (j + 1) / 2`, after the home bucket, modulo their number |
| ProbeSeq.AlignedPath | include/nvhashmap/probe_seq.hpp:146-238 | an aligned sequence is in its home block first and then goes block by block, one or one more at a time; inside a block it goes round from the place of the home bucket |
| ProbeSeq.BlockIsCovered | include/nvhashmap/probe_seq.hpp:146-238 | so the steps in a block visit each of its buckets |
| ProbeSeq.WholeTablePath | include/nvhashmap/probe_seq.hpp:146-238 | an alignment of the whole table or more makes every sequence go from bucket to bucket |
| MapLayout.LayoutIsGood | include/nvhashmap/probe_seq.hpp:146-238 | the path of every key visits each bucket once and path and rank are inverse |
| BitTricks.BitCeilByShift | include/nvhashmap/stdlib_ext.hpp:334-344 | one shifted by the leading zeros of the predecessor is `Conf.BitCeil`, for every word and every argument that a power of two in the word covers |
| Conf.BitCeilIsPow2 | include/nvhashmap/stdlib_ext.hpp:334-344 | that number is a power of two |
| Conf.BitCeilLeast | include/nvhashmap/stdlib_ext.hpp:334-344 | and no smaller power of two covers the argument |
| Conf.ThresholdPositive | include/nvhashmap/conf.hpp:192-197 | the growth threshold of a valid configuration is at least one |
| Conf.ResizeLeavesReserve | include/nvhashmap/map.hpp:828-840 | the capacity `resize_` settles on leaves at least its own threshold of slots empty, whatever was asked for |
| Conf.ResizeTargetIsLeast | include/nvhashmap/map.hpp:828-840 | and is the least power of two that does so and is not below what was asked for nor the configured minimum |
| Conf.GrowsExactly | include/nvhashmap/conf.hpp:173-197 | a table is full exactly if at most one slot in `grow_bias` is empty |
| Conf.MinCapacityLimitIsLeast | include/nvhashmap/conf.hpp:63-68 | the limit is the least power of two that holds a bucket and is not below the growth bias |
| Conf.DoublingIsNotFull | include/nvhashmap/map.hpp:650-655 | after a preemptive doubling the table is not full |
| Conf.DoublingIsEnough | include/nvhashmap/map.hpp:828-840 | doubling is never corrected upwards |
| Conf.Builder.SetCapacity | include/nvhashmap/conf.hpp:119-128 | capacities become powers of two with the initial one not below the minimum |
| Conf.Builder.SetGrowBias | include/nvhashmap/conf.hpp:130-136 | a bias out of range is rejected and changes nothing |
| Conf.Builder.AutoAdjust | include/nvhashmap/conf.hpp:158-171 | afterwards the configuration is valid, with both capacities raised no more than needed, and a valid one is left alone |
| Probing.MaskHit | include/nvhashmap/map.hpp:465-471 | the first matching slot whose key compares equal is the first one in probe order |
| Probing.MaskMiss | include/nvhashmap/map.hpp:465-471 | if none does, the bucket does not hold the key |
| Probing.EmptyEndsSearch | include/nvhashmap/map.hpp:473-474 | an empty slot ends the search: the key is absent |
| Probing.TombstoneFound | include/nvhashmap/map.hpp:684-692 | the first tombstone met is the first slot on the path without an entry |
| Probing.PlaceKeeps | include/nvhashmap/map.hpp:694-713 | filling the first free slot on the path keeps the invariant |
| HashMap.Map.constructor | include/nvhashmap/map.hpp:93-100 | a new map is valid, empty and has the initial capacity |
| HashMap.Map.Search | include/nvhashmap/map.hpp:440-478 | the search alone, on valid and invalid tables: it comes to the first entry of the key, or to the first bucket with an empty slot and has not met the key by then |
| HashMap.Map.FindFirst | include/nvhashmap/map.hpp:440-478 | returns the first entry of the key in probe order, with its sequence, and npos exactly if there is none; terminates within one cycle |
| HashMap.Map.PlaceOverTombstones | include/nvhashmap/map.hpp:664-714 | finds the key, or the first free slot on its path, reusing tombstones |
| HashMap.Map.PlaceInEmpty | include/nvhashmap/map.hpp:715-746 | the same without tombstones, where the slot found is empty |
| HashMap.Map.GrowIfFull | include/nvhashmap/map.hpp:650-655 | the preemptive growth keeps the entries and leaves the table not full |
| HashMap.Map.LoadBound | include/nvhashmap/conf.hpp:192-197 | on every valid map, with one more empty slot more than one in `grow_bias` would be empty |
| HashMap.Map.Insert | include/nvhashmap/map.hpp:638-755 | found exactly if present and duplicates are off; otherwise one entry is stored in the first free slot of the table, which a full one has doubled to first, and nothing else changes; the invariant and the reserve are kept |
| HashMap.Map.Put | include/nvhashmap/raw_map_base.hpp:1412-1419 | replaces the entry of the key, or adds one |
| HashMap.Map.Rehash | include/nvhashmap/map.hpp:842-923 | new arrays with the same entries, each in the first slot on its path that entries of earlier old slots have left to it; no tombstones, exact counters and a restored invariant; the throw is unreachable |
| HashMap.Map.Resize | include/nvhashmap/map.hpp:828-923 | any requested capacity: entries kept, invariant kept, capacity as computed, table rebuilt in slot order exactly if the capacity changes |
| HashMap.Map.ResizeTo | include/nvhashmap/raw_map_base.hpp:1145-1148 | the public resize |
| HashMap.Map.Reserve | include/nvhashmap/raw_map_base.hpp:1130-1137 | the capacity is at least what was asked for and never shrinks |
| HashMap.Map.Grow | include/nvhashmap/raw_map_base.hpp:907 | exactly doubles the capacity and keeps the entries |
| HashMap.Map.Clear | include/nvhashmap/map.hpp:199-208 | empty, with the initial capacity when shrinking is automatic |
| HashMap.Map.Reset | include/nvhashmap/map.hpp:777-786 | every slot empty and both counters exact |
| HashMap.Map.Bury | include/nvhashmap/map.hpp:788-806 | marks one slot, keeps the invariant, removes exactly that entry |
| HashMap.Map.AutoShrinkAndScrub | include/nvhashmap/map.hpp:808-826 | shrinks if the configuration asks for it, or else scrubs if slots were buried and it asks for that, or else leaves everything; the conditions are arithmetic on size, tombstones and capacity; false exactly if one of the two was started |
| HashMap.Map.ResetSlot | include/nvhashmap/map.hpp:788-806 | erases one entry; what follows is exactly the shrink or the scrub of the table so marked, or nothing |
| HashMap.Map.EraseAt | include/nvhashmap/map.hpp:329-343 | erases the entry at a position if there is one; positions stay good exactly if that starts neither a shrink nor a scrub |
| HashMap.Map.EraseFirst | include/nvhashmap/map.hpp:231-264 | erases the first entry of the key in probe order, exactly if there is one |
| HashMap.Map.EraseIf | include/nvhashmap/map.hpp:345-383 | exactly the selected entries go, their slots marked by whether their bucket has an empty slot, and their number is returned; what follows is exactly the shrink or scrub of the table so marked, or nothing |
| HashMap.Map.EraseAll | include/nvhashmap/map.hpp:385-438 | exactly the entries of the key go, with the same marks, number and consequences |
| HashMap.Map.ForEachKey | include/nvhashmap/map.hpp:573-607 | lists exactly the positions of the key, each once, in probe order |
| HashMap.Map.FindNext | include/nvhashmap/map.hpp:480-539 | returns the next position in probe order or that there is none; runs through a whole cycle if and only if the bucket left at its last slot is the only one with an empty slot |
| HashMap.Map.EraseNext | include/nvhashmap/map.hpp:266-327 | erases the next entry of the key in probe order, or runs out under the same condition as `FindNext` |
| Listing.ErasedIsReached | include/nvhashmap/map.hpp:314-325 | the slot just erased is where the next call goes on from |
| HashMap.Map.EraseEach | include/nvhashmap/map.hpp:231-327 | following `erase_first_` and `erase_next_` erases the entries of the key in probe order and returns their positions: all of them while positions stay good, an initial segment if a shrink or scrub cuts the chain short; it ends by running out under the same condition as `FindNext`, and never if the growth threshold exceeds the bucket size |
| HashMap.Map.FindEach | include/nvhashmap/map.hpp:440-539 | following the chain lists exactly the positions of the key, in probe order, and ends by itself if the growth threshold is at least the bucket size |
| HashMap.Map.Equal | include/nvhashmap/swiss_map_base.hpp:227-267 | true if and only if the two finite maps are equal, whatever the capacities, slot orders and tombstones |
| HashMap.Map.Upstream | include/nvhashmap/map.hpp:966-1004 | computes the slot an entry is moved to and the probe length at which the search stops |
| HashMap.Map.ScrubSlot | include/nvhashmap/map.hpp:963-1005 | one entry of a bucket that was loaded once is treated as the functional pass treats it, with exact counters |
| HashMap.Map.ScrubPass | include/nvhashmap/map.hpp:957-1006 | one pass over the arrays computes the functional pass |
| HashMap.Map.ReclaimTombstones | include/nvhashmap/map.hpp:1018-1025 | every tombstone becomes empty and nothing else changes |
| HashMap.Map.ReclaimDeadBuckets | include/nvhashmap/map.hpp:1026-1038 | exactly the buckets of tombstones become empty, and the counters follow |
| HashMap.Map.Scrub | include/nvhashmap/map.hpp:925-1045 | computes the functional scrub and the number of moves; entries kept, counters exact, invariant kept for buckets of two slots or more |
| Scrubbing.VisitKeeps | include/nvhashmap/map.hpp:977-998 | one move goes to a tombstone in another bucket and keeps the invariant and the entries |
| Scrubbing.MoveIsLocal | include/nvhashmap/map.hpp:960-996 | a move leaves the copy of its bucket good for the slots still to be visited |
| Scrubbing.StepKeeps | include/nvhashmap/map.hpp:957-1006 | each step of a pass keeps the invariant of the pass: buckets that have held a tombstone all along have no visited entry beyond them |
| Scrubbing.PassKeeps | include/nvhashmap/map.hpp:953-1011 | a whole pass does |
| Scrubbing.PassesKeep | include/nvhashmap/map.hpp:953-1011 | the passes do, up to the exit after at most one move |
| Scrubbing.ReclaimAllKeeps | include/nvhashmap/map.hpp:1017-1025 | if every entry is in its first bucket all tombstones may become empty |
| Scrubbing.ReclaimDeadKeeps | include/nvhashmap/map.hpp:1026-1038 | otherwise the buckets of tombstones may |
| Scrubbing.ScrubKeeps | include/nvhashmap/map.hpp:925-1045 | scrubbing keeps the entries always, and the invariant for buckets of two slots or more |
| Scrubbing.PassLowersPathSum | include/nvhashmap/map.hpp:953-1011 | each move lowers the sum of probe lengths, so the passes end |
| Scrubbing.ScrubShortens | include/nvhashmap/map.hpp:925-1045 | the sum of probe lengths falls by at least the number of moves |
| Scrubbing.ScrubChanges | include/nvhashmap/map.hpp:1000-1044 | at most twice as many slots change their entry as moves are reported |
| Scrubbing.TargetIsFirstFree | include/nvhashmap/map.hpp:966-996 | an entry moves to the first slot on its path that holds none, and stays exactly if no earlier bucket has one |
| Scrubbing.ScrubFixpoint | include/nvhashmap/map.hpp:1010-1016 | a scrub without moves changes nothing and no entry could have moved |
| Scrubbing.ScrubClearsDeadBuckets | include/nvhashmap/map.hpp:1026-1038 | after a scrub with moves no bucket consists of tombstones |
| OneSlotBuckets.ScrubHidesAnEntry | include/nvhashmap/map.hpp:1010-1038 | with one-slot buckets a scrub puts an empty slot in front of an entry |
| OneSlotBuckets.ScrubLosesAnEntry | include/nvhashmap/map.hpp:93-1045 | a run from the constructor on after which a key that the table holds is not found |
| OneSlotBuckets.ScrubSafeExactlyForWideBuckets | include/nvhashmap/map.hpp:925-1045 | scrubbing is safe for every table if and only if a bucket has at least two slots |
| Rebuild.CopyStep | include/nvhashmap/map.hpp:866-912 | re-inserting one entry keeps the invariant of the new table and the entries copied so far |
| Rebuild.CopyRoom | include/nvhashmap/map.hpp:906-909 | there is always an empty slot, so the search for one ends |
| Rebuild.OrderStep | include/nvhashmap/map.hpp:866-912 | taking the first free slot keeps every entry behind only entries of earlier old slots on its path |
| Rebuild.Size | include/nvhashmap/swiss_map_base.hpp:217 | capacity minus both counters is the number of entries |
| Sifting.OneMarked | include/nvhashmap/map.hpp:385-392 | without duplicates erasing all entries of a key marks the one slot that holds it |
| Sifting.SiftDone | include/nvhashmap/map.hpp:345-383 | dropping the selected entries slot by slot drops exactly them |
| Sifting.SweepStops | include/nvhashmap/map.hpp:421-422 | an empty slot ends the search for further entries of the key |
| Listing.ListBucket | include/nvhashmap/map.hpp:593-602 | the hits of the next bucket continue the list in probe order |
| Listing.NothingAhead | include/nvhashmap/map.hpp:503-511 | if only the bucket left at its last slot has an empty slot, nothing ahead ends the search, and nothing is missed |
| Listing.StopAhead | include/nvhashmap/map.hpp:503-511 | otherwise an empty slot lies ahead |
| Listing.RunawayHasFewEmpties | include/nvhashmap/map.hpp:503-511 | the chain can run away only on a table with no more empty slots than a bucket has slots, fewer if the position it is at holds an entry |
| Listing.OneListing | include/nvhashmap/map.hpp:480-607 | the chain and the enumeration give the same list |
| RunawayChain.ScrubCleans | include/nvhashmap/map.hpp:925-1045 | the scrub of that run brings two entries home, makes the slot they leave behind empty and reports two moves |
| RunawayChain.ChainRunsAway | include/nvhashmap/map.hpp:480-539 | a run from the constructor on, all within the reserve, after which `find_next_` goes through all buckets without coming to its end |
| Dictionary.TableIsMap | include/nvhashmap/swiss_map_base.hpp:227-267 | every valid table without duplicates stands for one finite map |
| Dictionary.AllContained | include/nvhashmap/swiss_map_base.hpp:231-266 | equal sizes and containment one way make equality |
| Dictionary.SameEntriesSameMap | include/nvhashmap/swiss_map_base.hpp:227-267 | same entries if and only if same finite map |
| Runs.Perform | include/nvhashmap/map.hpp:231-478 | one operation answers and acts as on a finite map |
| Runs.ListedValues | include/nvhashmap/map.hpp:573-607 | the values at the listed positions are those of all entries of the key, each as often as there is one |
| Runs.Run | include/nvhashmap/map.hpp:231-923 | so does every sequence of put, find, for_each, erase, erase_all, erase_if, clear, reserve, resize, grow and scrub |
| MultimapRuns.Perform | include/nvhashmap/map.hpp:231-607 | with duplicates, one operation answers and acts as on a multiset of entries |
| MultimapRuns.Run | include/nvhashmap/map.hpp:231-923 | so does every sequence of these operations |
| Words.SubIsModular | include/nvhashmap/kernel.hpp:470 | byte-wise borrow is subtraction modulo 256^n |
| Words.AddIsModular | include/nvhashmap/kernel.hpp:472 | byte-wise carry is addition modulo 256^n |
| Words.BroadcastIsProduct | include/nvhashmap/kernel.hpp:466 | `lsbs * s` is `s` in every byte |
| Words.WidenIsProduct | include/nvhashmap/kernel.hpp:539 | `(m >> 7) * 0xff` does not overflow from byte to byte |
| Kernels.ArrayMask | include/nvhashmap/kernel.hpp:143-149 | the loop sets exactly the flags of matching slots |
| Kernels.MaskAgrees | include/nvhashmap/kernel.hpp:464-478 | the exact word mask and its complement are the slot masks |
| Kernels.MaskEqualAgrees | include/nvhashmap/kernel.hpp:498-503 | comparing two words is comparing their slots |
| Kernels.MarkerMasksAgree | include/nvhashmap/kernel.hpp:480-497 | on valid states the two-bit tests find empty slots, tombstones and entries |
| Kernels.TransformsAgree | include/nvhashmap/kernel.hpp:523-536 | `hash_to_tombstone` and `not_hash_to_empty` act slot by slot |
| Kernels.TransformsMean | include/nvhashmap/kernel.hpp:297-318 | what the two transforms do to each kind of state |
| Kernels.ToEmptyAgrees | include/nvhashmap/kernel.hpp:538-543 | `to_empty` empties exactly the slots of the mask |
| Kernels.FastMaskIsSafe | include/nvhashmap/kernel.hpp:464-475 | the fast mask contains every match, is zero if and only if there is none, has the same lowest slot, and otherwise reports only entries in runs directly above a match |
| Kernels.SuspectsAre | include/nvhashmap/kernel.hpp:464-475 | what it reports is exactly the matches and the unbroken runs above them of the state that differs from the match in the lowest bit |
| Kernels.TouchOrders | include/nvhashmap/kernel.hpp:375-387 | no counter wraps, the touched slot ends above all that were not above it, the others keep their order |
| Kernels.UpdateLruAgrees | include/nvhashmap/kernel.hpp:584-596 | updating all counters of a word is updating each |
| Kernels.MaskLruBelowAgrees | include/nvhashmap/kernel.hpp:575-582 | the word mask of low counters is the slot mask |
| Kernels.ToEmptyIfLruBelowAgrees | include/nvhashmap/kernel.hpp:598-600 | emptying by counter agrees slot by slot |
| Kernels.MinLru | include/nvhashmap/kernel.hpp:348-359 | the first slot with the least counter |
| Masks.DecIsModular | include/nvhashmap/mask.hpp:226 | `m - 1` on bits is arithmetic modulo the word size |
| Masks.NextIsLeast | include/nvhashmap/mask.hpp:220-223 | `next` is the least slot of the set |
| Masks.StepRemovesLeast | include/nvhashmap/mask.hpp:226-227 | `step` removes the least slot and `truncate` keeps only it |
| Masks.CutsOff | include/nvhashmap/mask.hpp:199-208 | `above` and `from` cut the set off at a slot, also at -1 and at the last slot |
| Masks.SingleIs | include/nvhashmap/mask.hpp:189-197 | `single` holds one slot |
| Masks.FullIs | include/nvhashmap/mask.hpp:172-188 | `full` holds every slot and nothing else, for one, two, four or eight bits to a slot and both alignments |
| Masks.CountIsSize | include/nvhashmap/mask.hpp:216 | `count` is the size of the set |
| Masks.IterationIsTheSet | include/nvhashmap/mask.hpp:215-227 | iteration yields every slot once, in increasing order |
| Masks.BitsetFrom | include/nvhashmap/mask.hpp:79-85 | the loop removes exactly the slots below |
| Masks.BitsetAbove | include/nvhashmap/mask.hpp:86-92 | the loop removes exactly the slots up to and including the given one, none for -1 |
| Masks.BitsetNext | include/nvhashmap/mask.hpp:102-107 | the loop stops at the least slot |
| Masks.BitsetStep | include/nvhashmap/mask.hpp:112-116 | removes the least slot |
| Masks.BitsetTruncate | include/nvhashmap/mask.hpp:117-126 | keeps only the least slot |
| Masks.NextAgrees | include/nvhashmap/mask.hpp:215-223 | a word mask and a bitset of the same slots have the same least slot, or none |
| Masks.StepAgrees | include/nvhashmap/mask.hpp:226-230 | they stay the same set under `step` and `truncate` |
| Masks.CutsAgree | include/nvhashmap/mask.hpp:199-208 | and under `above` and `from` |
| Masks.Iterate | include/nvhashmap/map.hpp:466 | the loop idiom does |
| Matchers.EveryKernelWillDo | include/nvhashmap/map.hpp:465-471 | the fast, the exact and the array kernel all give the map what it needs |
| Matchers.MarkerSearches | include/nvhashmap/map.hpp:684-703 | the marker masks give the tests and first slots the map's loops use |
| CacheTable.NoAliasing | include/nvhashmap/cache.hpp:26-30 | interleaved states and counters never share a byte |
| CacheTable.CacheIsTable | include/nvhashmap/cache.hpp:333-364 | a cache keeps the map's invariant without probing |
| CacheTable.TouchedIs | include/nvhashmap/cache.hpp:356-358 | touching a slot stays in its bucket, raises it above all that were not above it and keeps the order of the others |
| CacheTable.ReplacedKeeps | include/nvhashmap/cache.hpp:551-566 | evicting one entry for another keeps the invariant |
| CacheTable.ScrubKeepsCache | include/nvhashmap/cache.hpp:699-722 | scrubbing removes exactly the entries below the threshold |
| CacheResize.GrowingRefines | include/nvhashmap/cache.hpp:657-660 | with a multiple of the buckets each new bucket draws from one old one |
| CacheResize.AlwaysRoom | include/nvhashmap/cache.hpp:661-678 | so growing never finds a bucket full |
| CacheResize.ReplaceFair | include/nvhashmap/cache.hpp:671-689 | replacing the least used entry keeps what was dropped below what is kept |
| CacheResize.DropFair | include/nvhashmap/cache.hpp:671-678 | so does dropping an entry used less |
| CacheResize.FillOrderly | include/nvhashmap/cache.hpp:661-670 | new buckets are filled from their first slot on in the order of the old slots |
| CacheResize.ReplaceOrderly | include/nvhashmap/cache.hpp:671-689 | on equal counters the later entry replaces the earlier one |
| CacheResize.DropOrderly | include/nvhashmap/cache.hpp:671-678 | an entry is dropped at once only if it was used less than all that are there |
| LruCache.Cache.constructor | include/nvhashmap/cache.hpp:83-88 | a new cache is valid and empty |
| LruCache.Cache.Find | include/nvhashmap/cache.hpp:333-364 | finds the entry exactly if it is there and counts one use of it |
| LruCache.Cache.Insert | include/nvhashmap/cache.hpp:510-569 | finds, fills the first empty slot of the home bucket, or evicts exactly the first least used entry of a full one |
| LruCache.Cache.EraseFirst | include/nvhashmap/cache.hpp:194-222 | erases the entry of the key exactly if there is one |
| LruCache.Cache.EraseAt | include/nvhashmap/cache.hpp:262-274 | erases the entry at a position if there is one |
| LruCache.Cache.EraseIf | include/nvhashmap/cache.hpp:276-299 | exactly the selected entries go, and their number is returned |
| LruCache.Cache.Scrub | include/nvhashmap/cache.hpp:699-722 | below the maximum, removes exactly the entries under the threshold and returns their number |
| LruCache.Cache.Resize | include/nvhashmap/cache.hpp:611-697 | growing keeps everything; shrinking drops an entry only for entries of its bucket used no less, and of two used equally keeps the later one; buckets with room are filled in the order of the old slots; the counter is exact |
| LruCache.Cache.Reset | include/nvhashmap/cache.hpp:588-601 | every slot empty |
| LruCache.Cache.Put | include/nvhashmap/cache.hpp:510-569 | insertion followed by assignment: all other slots keep their entries, and an entry of another key is given up only if it is the first least used one of a full home bucket |
| CacheRuns.TouchCounts | include/nvhashmap/cache.hpp:356-358 | a hit adds one use to its key, and halves the counters of at most one bucketful of keys if that one was at the limit |
| CacheRuns.VictimCrowds | include/nvhashmap/cache.hpp:551-566 | an entry is evicted only if a bucketful of entries was used as much |
| CacheRuns.ScrubHolding | include/nvhashmap/cache.hpp:699-722 | a scrub keeps exactly the entries used at least as often as the threshold, with their counters |
| CacheRuns.MoveHolding | include/nvhashmap/cache.hpp:611-697 | a resize keeps counters, and drops an entry only if a bucketful of entries used as much is kept |
| CacheRuns.Perform | include/nvhashmap/cache.hpp:194-722 | one operation does to the cache what it does to the forgetful map of its entries and counters |
| CacheRuns.Run | include/nvhashmap/cache.hpp:194-722 | so does every sequence of operations |
| ForgetfulMap.NeverStale | include/nvhashmap/cache.hpp:194-722 | in every run, what the cache holds is the latest |
| ForgetfulMap.WhyMissed | include/nvhashmap/cache.hpp:194-722 | a key that was put and is not held was dropped by an eviction, a scrub below the maximum or a shrinking resize, and not put again since |
| ForgetfulMap.NothingForgotten | include/nvhashmap/cache.hpp:611-697 | a run without these ends with everything that was put |
| ForgetfulMap.Lookups | include/nvhashmap/cache.hpp:333-364 | so every lookup of a run answers with the latest value, or misses for such a reason, and without such an operation answers exactly as a finite map |
| PopCount.BytesCount | include/nvhashmap/stdlib_ext.hpp:98-100 | after the three partial sums every byte of the word holds the number of its own bits |
| PopCount.TopByteIsSum | include/nvhashmap/stdlib_ext.hpp:102-106 | the multiplication leaves the sum of all bytes in the top byte |
| PopCount.PopcountCounts | include/nvhashmap/stdlib_ext.hpp:88-107 | `popcount_fallback` is the number of bits set, for every word of up to 31 bytes |
| BitTricks.PopcountIsOnes | include/nvhashmap/stdlib_ext.hpp:88-107 | `popcount_fallback` is the count of ones that the loops below use |
| BitTricks.CountlZero | include/nvhashmap/stdlib_ext.hpp:139-148 | the smearing loop counts the leading zeros for words of any width |
| BitTricks.CountrZero | include/nvhashmap/stdlib_ext.hpp:182-189 | counts the trailing zeros, the whole width for zero |
| BitTricks.BitCeilFallback | include/nvhashmap/stdlib_ext.hpp:319-332 | the least power of two not below the argument if the word can hold it, and one otherwise |
| Mutex.StepKeeps | include/nvhashmap/mutex.hpp:246-385 | every step of every thread keeps the invariant |
| Mutex.Exclusion | include/nvhashmap/mutex.hpp:246-385 | in every run the word is -1 exactly when one thread owns the lock and nobody shares it, and otherwise counts the readers |
| Mutex.TryLock | include/nvhashmap/mutex.hpp:284-287 | `try_lock` comes to own the mutex if and only if nobody held it, and otherwise changes nothing |
| Mutex.LockComesIn | include/nvhashmap/mutex.hpp:246-282 | undisturbed, a thread awake in `lock` comes to own a free mutex within three steps and then knows the data |
| Mutex.SharedComesIn | include/nvhashmap/mutex.hpp:315-364 | so does one in `lock_shared` or `try_lock_shared` come to share a mutex without a writer |
| Mutex.Begins | include/nvhashmap/mutex.hpp:246-364 | `try_lock_shared` gives up exactly when it finds a writer, and then changes nothing |
| Mutex.GoesOut | include/nvhashmap/mutex.hpp:289-380 | `unlock` leaves the mutex free and `unlock_shared` one reader less; the one who leaves it free owes the notification; after it, each goes on as its operation says |
| Mutex.SpinsThenSleeps | include/nvhashmap/mutex.hpp:246-282 | a thread that finds the mutex taken every time goes to sleep after exactly the configured number of iterations, on the value it has seen |
| Mutex.SharedSpinsThenSleeps | include/nvhashmap/mutex.hpp:315-353 | so does a reader |
| Mutex.SpinsAgain | include/nvhashmap/mutex.hpp:272-279 | a thread woken to the value it waited on sleeps again at once, and otherwise spins one iteration less |
| Mutex.NoLostWakeup | include/nvhashmap/mutex.hpp:246-380 | a sleeping reader waits for a writer or a `notify_all` on its way to it; a sleeping writer for somebody inside, a notification on its way to it, or a thread awake in `lock` or `lock_shared` |
| Mutex.WriterLeftToAReader | include/nvhashmap/mutex.hpp:289-380 | with waiting and four threads or more, a run in which only an awake reader is left for a sleeping writer to rely on |
| Mutex.StrictExactlyForThreeThreads | include/nvhashmap/mutex.hpp:246-380 | in every run a sleeping writer has somebody inside, a notification on its way to it, or a writer awake in `lock`, if and only if threads do not wait or there are at most three |
| Mutex.NeverOnlySleepers | include/nvhashmap/mutex.hpp:246-380 | the mutex is never free with only sleepers left |
| Mutex.AssertionsHold | include/nvhashmap/mutex.hpp:290-368 | the assertions on the word hold, and fewer readers than threads are seen |
| Mutex.StableWhileShared | include/nvhashmap/mutex.hpp:76-110 | nobody changes the data while a thread keeps its share |
| Mutex.Conversions | include/nvhashmap/mutex.hpp:300-309 | downgrading and upgrading change nothing but the word; upgrading succeeds exactly for the only reader |
| Mutex.RelockNeverBlocksSharing | include/nvhashmap/mutex.hpp:123-149 | `upgrade_or_relock` never waits while it holds its share |
| Mutex.RelockMissesAChange | include/nvhashmap/mutex.hpp:137-142 | a run in which another writer changes the data during a relock |

## Left out

- Conf.Builder: `set_scrub_bias`, `set_shrink_bias` and the blob settings work like `SetGrowBias`.
- CacheRuns.Run: caches with `duplicates` are covered operation by operation only.
- HashMap.Map.Scrub: the log messages and the unused threshold argument are not modelled.
- SSE, AVX, NEON and SVE kernels: intrinsics; the array kernel is their specification.
- Bounded probe sequences of the map: with enough colliding hashes the doubling need not end.
- `find_if_`, `for_each_`, copying and swapping of maps: only easy members.
- `shrink_target_`: it proposes a capacity that `resize_` corrects.
- The compiler built-ins for counting bits.
- The cache's `find_next_`, `erase_next_`, `erase_all_` and `for_each_` on a key: within one bucket they do what the map's do along a whole path.
- Allocators, prefetching, logging, blobs, exceptions from element constructors, overflow beyond the maximal capacity.
- `guarded`, `sharded`, the position and iterator wrappers: they forward to the inner map.
- The hash mixer: any hash will do. Floating-point keys that are not equal to themselves are rejected by the code; key equality is an equivalence here.
- Weak memory orders, back-off times and fairness of the mutex: steps are sequentially consistent.
- `downgrade` and `upgrade_or_relock` on mutexes without these operations.

# A verified model of the APFS driver's B-tree, queues and space accounting

The driver is a copy-on-write file system derived from btrfs. This project models the parts of
it whose correctness is hardest to see from the code, and proves what they promise.

**The B-tree engine (`ctree.c`).** `Trees` is the tree as a value: leaves hold items, interior
nodes hold (key, child) pairs, and the key of a pair is the lowest key below it. A path is a
list of frames, one per interior level, with the pairs left and right of the slot the path goes
through. `Paths.Path` is the mutable path of the C code together with the tree it lies in.
Restructuring is proved in one way throughout: a push, split or merge regroups the same
grandchildren (or items), so contents, order and the path's position follow from the
position in that unchanged list. On top of this are

- `Search`: the descent with its shortcut after an exact match equals binary search at every
  level;
- `Walk` and `Omap`: stepping leaf by leaf, and the object map's "newest version not after xid";
- `LowKeys`: the single writes to a parent's keys, and fixup_low_keys; every push, split and merge
  makes its own writes, which together restore the keys;
- `Nodes`, `Leaves`, `LeafSplit`: sibling pushes, splits, double splits and rebalancing;
- `Insert`, `Delete`, `Edits`, `BTrees`: whole insertions, of one item or several, deletions, and
  items extended, cut, split and duplicated, and every run of them, against a sorted sequence as
  reference;
- `LeafLayout`: the same leaf edits on bytes, with headers, offsets and `memmove`.

**The ordered work queue (`async-thread.c`).** `OrderedWork` is a state machine of atomic steps
between lock, unlock and bit operations, with any number of workers; a schedule is any sequence
of workers, and the theorems are about every schedule: what stays true, how many steps there can
be, and that fair schedules come to an end.

**The delayed-reference queue (`delayed-ref.c`).** `Refs` and `DelayedRefs`: sorted trees of
references, merging below a held sequence number, exact counters, cyclic selection.

**Space accounting.** `BlockGroups` (`block-group.c`), `BlockRsv` (`block-rsv.c` and the reserve
in `delayed-ref.c`) and `Delalloc` (`delalloc-space.c`): conservation over whole runs, and a
bound that rests on ceilings being subadditive and holds however reservations and releases
interleave. Sizes are unsigned in the C code and `nat` here,
so every subtraction is proved not to wrap.

**Two algorithms.** `Backref` (draining the backref cache) and `RadixSort` (`compression.c`).

What the code does not do on all inputs is stated as what it is: `Omap.FindOmapPaddr` is correct
if and only if the map and the object do not wrap (`Omap.WrapExample` is a map that does);
`RadixSort.SortedIff` says exactly when the radix sort leaves its array descending
(`RadixSort.NotAlwaysSorted` has arrays it does not sort); inserting several items, cutting,
splitting and duplicating leave a tree sorted exactly under a condition on the keys; and filling
the delayed-refs reserve like any other is safe exactly under `BlockRsv.FilledThenEnlarged`.

`dafny verify dfyconfig.toml` checks the project.

## Model

| member | source | states |
|---|---|---|
| Keys.StrCmpOrder | ctree.c:608-620 | string comparison is antisymmetric and transitive, strictly so as soon as one step is |
| Keys.CompNameOrder | ctree.c:608-620 | the same for names that may be missing |
| Keys.CmpOrder | ctree.c:634-678 | both key comparators are total preorders, whatever the record types and the hash flag |
| Keys.StrCmpIs | ctree.c:608-620 | 0 exactly for equal strings, and negative exactly when there is a place up to which they agree and at which the first has ended or is smaller |
| Keys.CompNameIs | ctree.c:608-620 | the same for names, a missing one coming before every other |
| Keys.CmpIs | ctree.c:632-678 | 0 exactly when the components that count agree, and negative or positive exactly as the first that differs is smaller or larger: object, type and then hash and name, name or offset by record type in file-system trees; type, object and offset elsewhere |
| Trees.LowIsFirst | ctree.c:1764-1771 | in a well-shaped node the first stored key is the key of the first item below |
| Trees.ShapeWhole | ctree.c:1641-1881 | putting a well-shaped node back at the end of a well-shaped path gives a tree of uniform depth whose parent keys equal their children's first keys |
| Trees.FlatWhole | ctree.c:1641-1881 | the tree a path lies in holds what is before the path, what is at it and what is after it, in that order |
| Search.RankUnique | ctree.c:718-760 | a slot with smaller keys before it and no smaller key from it on is the rank of the key |
| Search.BinSearch | ctree.c:718-760 | the search returns the number of smaller keys, and 0 exactly when the key is stored |
| Search.SearchNode | ctree.c:1764-1780 | taking slot 0 below an exact match gives the slot and answer a binary search would |
| Search.SearchSlot | ctree.c:1694-1881 | the path's slots are those of a full binary search at every level; 0 exactly when the key is in the tree; otherwise all smaller items are before the position and all larger ones after it |
| Search.SearchOldSlot | ctree.c:1895-1979 | the search without the shortcut has the same contract, hence the same slots |
| Walk.SamePath | ctree.c:4332-4488 | two paths to the same position in a tree are the same path |
| Walk.SearchReturns | ctree.c:4347-4371 | searching for a key of a leaf comes back to that leaf and slot |
| Walk.NextLeaf | ctree.c:4332-4488 | the next leaf begins right after the items of the last one; 1 exactly when nothing follows |
| Walk.WalkAll | ctree.c:4332-4488 | walking leaf by leaf lists exactly the tree's items, in sorted order |
| Omap.PrevLeaf | ctree.c:4080-4122 | it lands where a search for the key before the leaf's first key lands |
| Omap.StepBack | ctree.c:4496-4530 | one step back yields the item before the position, across leaves; from the front of the map it finds nothing unless the map wraps, and then the last item |
| Omap.StepBackCorrect | ctree.c:4575-4614 | the step back gives the right answer if and only if the map does not wrap |
| Omap.FindOmapPaddr | ctree.c:4575-4614 | the result is the newest mapping of the object not above the xid, and ENOENT exactly when there is none, if and only if it is not the case that the first key has xid 0 and a larger oid |
| Omap.WrapExample | ctree.c:4080-4122 | a well-formed one-item map for which the lookup is wrong |
| Paths.RegroupKeeps | ctree.c:1015-1031 | regrouping the pairs of sibling nodes leaves the pair the path points at, and the contents on both sides of it, as they were |
| Nodes.PushLeftCount | ctree.c:2206-2243 | a push never moves more than the source has nor overfills the destination; unless the whole node goes it leaves 8 pairs or more, and when emptying it moves everything that fits but for at most 8 pairs |
| Nodes.PushNodeLeft | ctree.c:2206-2275 | exactly the stated number of pairs moves from the front of one node to the end of the other; 1 exactly when none does |
| Nodes.PushRightCount | ctree.c:2286-2316 | a push to the right never empties the source nor overfills the destination; it happens exactly if there is room and the source has four pairs, and unless it fills the destination what goes exceeds what stays by one or two |
| Nodes.BalanceNodeRight | ctree.c:2286-2348 | exactly the stated number of pairs moves from the end of one node to the front of the other |
| Nodes.BalanceCounts | ctree.c:925-990 | the arithmetic for a capacity of at least 10: a node is left with one pair only if its left sibling can lend to it or take the pair |
| Nodes.BalanceThree | ctree.c:925-990 | left, middle and right pairs stay the same concatenation, no node is overfull, the middle never keeps exactly one pair, and neither error exit is taken |
| Nodes.LastPair | ctree.c:965-990 | a node with one pair borrows or gives it up; the check for a failed push does not fire |
| Nodes.WriteBack | ctree.c:942-1010 | the key writes and pointer deletions of balance_level leave in the parent exactly the pairs of the non-empty nodes with their first keys, and the key at slot 0 as it was |
| Nodes.InsertNewRoot | ctree.c:2357-2410 | the new root holds only the old one, and the path is unchanged below |
| Nodes.Regroup | ctree.c:1011-1031 | storing a regrouped parent keeps the tree well shaped and the path on the same pair |
| Nodes.PushIntoLeft | ctree.c:1048-1110 | pairs move left exactly when the sibling has room and the node pairs to spare; the path stays on its pair |
| Nodes.PushIntoRight | ctree.c:1111-1182 | the same to the right |
| Nodes.PushNodesForInsert | ctree.c:1048-1182 | 0 exactly when one of the two pushes is possible; the path stays on its pair |
| Nodes.HalveNode | ctree.c:2504-2547 | the parent gains one pointer, and the path is on its pair in the half, rounded up for the left one, that holds it |
| Nodes.SplitNode | ctree.c:2467-2547 | a nearly full node ends with room for two more pairs, contents and position unchanged |
| Nodes.BalanceLevel | ctree.c:821-1042 | the root gives way exactly when it has one child; otherwise the path stays on the same child, with the same contents on both sides, in a node of at least two pairs |
| Leaves.PushRightItems | ctree.c:2624-2656 | the number of items pushed is the first at which the push must stop, and those items fit |
| Leaves.PushLeftItems | ctree.c:2852-2880 | the same for pushes to the left |
| Leaves.RightmostItems | ctree.c:2624-2656 | what the first stop comes to: the items pushed fit with the new data if it goes along, none before the path's slot goes but for a single one, and one more would not fit or would pass the lowest slot allowed or the path's slot |
| Leaves.LeftmostItems | ctree.c:2852-2880 | the same for pushes to the left |
| Leaves.PushLeafRight | ctree.c:2748-2824 | 1 exactly when blocked, with nothing changed; otherwise the parent's leaves are the old ones with that many items moved, and the path is at the same place in key order |
| Leaves.PushLeafLeft | ctree.c:2986-3053 | the same to the left |
| LowKeys.FixupLowKeys | ctree.c:2072-2093 | exactly the keys from the lowest level up to the first slot that is not 0 are replaced |
| LowKeys.FixKeysOk | ctree.c:2072-2093 | afterwards every parent key on the path again equals its child's first key |
| LowKeys.FixKeysFlat | ctree.c:2072-2093 | no item moves |
| LowKeys.FixAtSlot | ctree.c:2072-2093 | at a slot that is not 0 only the key there changes |
| LowKeys.FixSame | ctree.c:2072-2093 | keys that are right already are left as they are |
| LowKeys.WrittenTwo | ctree.c:2712-2714 | writing two neighbours and the key of the second restores both pairs, if the first key of the first is unchanged |
| LowKeys.WrittenSplit | ctree.c:2419-2456 | so does writing a child's lower part and inserting a pair for the upper |
| LeafSplit.PlanOk | ctree.c:3244-3286 | every decision of split_leaf is feasible: splits leave no leaf empty, a single split leaves room at the path, a double one happens only inside the leaf and after pushing |
| LeafSplit.CopyForSplit | ctree.c:3059-3116 | the items from the split point on form a new leaf right after, and the path keeps its place |
| LeafSplit.AddLeafAfter | ctree.c:3310-3320 | the path ends on a new empty leaf after all smaller items, with the new key in the parent |
| LeafSplit.AddLeafBefore | ctree.c:3321-3331 | the path ends on a new empty leaf before its old one, with the keys above corrected |
| LeafSplit.PushForDoubleSplit | ctree.c:3128-3180 | contents and position are unchanged |
| LeafSplit.PushFirstTime | ctree.c:3213-3233 | contents and position are unchanged |
| LeafSplit.SplitCrowded | ctree.c:3241-3356 | for every crowded leaf, slot and item that fits, it succeeds with at most two leaves added, contents around the path unchanged and room at the path; the check against a second double split (line 3343) never fires |
| LeafSplit.SplitLeaf | ctree.c:3188-3356 | it fails exactly when the grown item fits no leaf; otherwise the path is at the same place in key order on a leaf with room |
| Insert.InsertedSplit | ctree.c:3731-3822 | putting an item between all smaller and all larger ones is sorted insertion |
| Insert.SortedInserted | ctree.c:3731-3822 | and leaves keys strictly increasing |
| Insert.DescendInsert | ctree.c:1445-1464 | splitting on the way down keeps contents and order, and leaves the parent room for two more pointers |
| Insert.DescendToLeaf | ctree.c:1694-1881 | the descent ends where the key is or would be, on a leaf of the tree it started from, at the same place in it |
| Insert.RoomAtLeaf | ctree.c:1782-1816 | a new key ends between the smaller and the larger items with room for it; an existing one ends on its item, with an overflow exactly if the grown item fits no leaf and otherwise with room to grow |
| Insert.SearchForInsert | ctree.c:1641-1881 | 1 exactly for a new key, ready to insert; the contents never change |
| Insert.SetupItems | ctree.c:3731-3822 | the items are put at the path, parents' keys included, and the path stays well shaped |
| Delete.RemovedSplit | ctree.c:3964-4009 | taking the item out between all smaller and all larger ones is removing its key |
| Delete.DescendDelete | ctree.c:1466-1486 | rebalancing on the way down keeps contents and order, and leaves the parent at least two pointers |
| Delete.SearchForDelete | ctree.c:1641-1881 | 0 exactly when the key is in the tree, with the path on its item; the contents never change |
| Delete.PushBoth | ctree.c:4033-4052 | each of the two pushes that try to empty a sparse leaf moves the first count at which it must stop, the second only if the path stayed, and all three leaves stay within bounds |
| Delete.WriteLeft | ctree.c:2889-2956 | the writes of a push to the left, which may empty the leaf, with the key read from its first header |
| Delete.WriteRight | ctree.c:2664-2715 | the writes of a push to the right, and the deletion of the leaf's pair if it is empty |
| Delete.WriteLeaves | ctree.c:4033-4055 | together they leave exactly the pairs of the non-empty leaves with their first keys |
| Delete.MergeLeaf | ctree.c:4029-4062 | the parent has the leaves those pushes leave, without the sparse leaf exactly if all of it was pushed; the tree stays well shaped with its contents |
| Delete.DelLeaf | ctree.c:3890-3959 | deleting an emptied leaf's pointer keeps the tree well shaped, keys above included, and the parent is never emptied |
| Delete.DelItems | ctree.c:3964-4070 | exactly the given items go, in a tree that stays well shaped; the path is left on its leaf unless that is empty or less than a third full and not the root |
| BTrees.GetInserted | ctree.c:3861-3882 | after an insertion the new key reads back the new item and every other key what it read before |
| BTrees.GetRemoved | ctree.c:3964-4070 | after a deletion the key reads back nothing and every other key what it read before |
| BTrees.GetParts | ctree.c:1641-1881 | what is found has a key that agrees in all components that count, and nothing is found only if there is no such item |
| BTrees.ReadsOne | ctree.c:3562-3718 | after an item is replaced by one with its key or a larger one, that one is read back, and every key but these two reads what it read before |
| BTrees.ReadsTwo | ctree.c:3424-3553 | the same for two items, the first with the key of the old one |
| BTrees.StayTwo | ctree.c:3424-3553 | two such items keep the order if and only if the second key is between the first and the next one stored |
| BTrees.RemovedInserted | ctree.c:3964-4070 | deleting what was inserted restores the contents |
| BTrees.SiblingKeysOrdered | ctree.c:2167-2197 | the last key of a node is below the first key of its right neighbour, at every level, so the sibling check never fires |
| BTrees.BTree.InsertItem | ctree.c:3828-3882 | on every well-formed tree: sorted insertion of a new key; an existing key changes nothing and gives EEXIST, or EOVERFLOW exactly if item and data together fit no leaf |
| Edits.SortedAround | ctree.c:3731-3822 | a run put between smaller and larger items leaves all sorted if and only if it is sorted and ends before the larger ones |
| Edits.InsertedTogether | ctree.c:3731-3822 | then putting it there is inserting its items one by one |
| BTrees.BTree.InsertItems | ctree.c:3828-3855 | several items go where the first belongs; the tree stays sorted if and only if they are in order and belong before the next item stored, and then they are inserted one by one; EEXIST and EOVERFLOW exactly as for one |
| Edits.ReplacedSorted | ctree.c:3424-3489 | replacing an item by ones that do not begin below it leaves all sorted if and only if they are in order and end before the next key stored |
| Edits.EditItem | ctree.c:3638-3646 | the item at the path is replaced, parents' keys included |
| Edits.OffsetRaised | ctree.c:3638-3640 | raising a key's offset never lowers the key, under either comparator |
| BTrees.BTree.ExtendItem | ctree.c:3658-3718 | on every well-formed tree: the key reads back its old data followed by the new bytes, and every other key what it read before; EOVERFLOW, with nothing changed, exactly if the item would fit no leaf |
| BTrees.BTree.TruncateItem | ctree.c:3562-3653 | cut at the end, the key reads back a prefix of the new size; cut at the front, the key with its offset raised by the cut reads back the header followed by the right end; every other key reads what it read before; the tree stays sorted, parents' keys included, if and only if the item's new key is below the next one |
| BTrees.SameLeaf | ctree.c:3384-3412 | the second search of setup_leaf_for_split ends on the leaf of the first |
| BTrees.BTree.SetupLeafForSplit | ctree.c:3358-3422 | room in the item's leaf with the path on the item, or EOVERFLOW exactly if none can be made; the checks for a changed leaf do not fire |
| BTrees.BTree.SplitItem | ctree.c:3506-3519 | the old key reads back so many bytes, followed by what the new key reads they are the old data, and every other key reads what it read before; the tree stays sorted if and only if the new key is between the item's and the next |
| BTrees.BTree.DuplicateItem | ctree.c:3530-3553 | the new key reads back the same data as the old one, which is as it was, and every other key reads what it read before; sorted under the same condition |
| BTrees.BTree.DeleteItem | ctree.c:3964-4070 | on every well-formed tree: the key's item goes if there is one, and nothing else changes |
| BTrees.BTree.Lookup | ctree.c:1641-1881 | the answer is the item stored under the key: one whose key agrees in all components that count, and none only if there is none |
| BTrees.BTree.RunAll | ctree.c:1641-4070 | over every run of insertions, deletions and edits, made as callers must make them, the tree stays sorted, balanced in depth and within its bounds, holds what the reference holds, and a walk lists it |
| LeafLayout.WeightIsSpace | ctree.c:2556-2594 | the bytes counted for items are their data plus their headers |
| LeafLayout.ReadBack | ctree.h:5520-5527 | every header points at its item's bytes, and items lie next to each other down from the end of the leaf: no gap, no overlap |
| LeafLayout.Memmove | ctree.c:3787-3789 | the block is copied as it was, overlap or not |
| LeafLayout.Leaf.ShiftOffsets | ctree.c:3599-3606 | exactly the offsets from a slot on move, by the given distance |
| LeafLayout.Leaf.SetupItems | ctree.c:3731-3822 | new items with the given keys and sizes appear at the slot; every other item keeps its key and bytes |
| LeafLayout.Leaf.InsertItem | ctree.c:3861-3882 | the item reads back as written and no other item changes |
| LeafLayout.Leaf.ExtendItem | ctree.c:3658-3718 | the item grows, its old bytes stay a prefix, and no other item changes |
| LeafLayout.Leaf.TruncateItem | ctree.c:3562-3653 | cutting the end keeps a prefix; cutting the front keeps the right end, after the kept header of an inline extent, and moves the key's offset; no other item changes |
| LeafLayout.TruncatedCuts | ctree.c:3606-3646 | what is left has the new size: a prefix under the same key, or the kept header and then the right end, under a key whose offset has grown by the cut |
| LeafLayout.CutsComplement | ctree.c:3606-3643 | what cutting the end keeps and what cutting the front keeps are together the item |
| LeafLayout.CutInSteps | ctree.c:3606-3646 | cutting in steps is cutting at once, key included |
| LeafLayout.HeaderSpills | ctree.c:3616-3632 | keeping an inline header longer than the new size spares the neighbouring item if and only if that holds the same bytes there |
| LeafLayout.Leaf.SplitItem | ctree.c:3424-3489 | the two halves concatenate to the old item and no other item changes |
| LeafLayout.Leaf.DelItems | ctree.c:3964-4009 | the items go and every other one keeps its key and bytes |
| LeafLayout.Leaf.Repack | ctree.c:2692-2701 | recomputing offsets from sizes packs the items from the end of the leaf |
| LeafLayout.CopyForSplit | ctree.c:3072-3100 | both leaves hold their share of the items, byte for byte |
| LeafLayout.PushRight | ctree.c:2664-2704 | the last items of one leaf become the first of the next, byte for byte |
| LeafLayout.PushLeft | ctree.c:2889-2947 | the first items of one leaf become the last of the one before, byte for byte |
| OrderedWork.SubmitKeeps | async-thread.c:340-354 | queueing a work keeps the protocol's invariant |
| OrderedWork.ExecuteKeeps | async-thread.c:298-322 | so does running its function and marking it done |
| OrderedWork.LookPlaces | async-thread.c:230-247 | looking at the head of the list keeps lock, list, bits and the claim consistent |
| OrderedWork.LookHands | async-thread.c:230-247 | and what each worker knows about the work in its hands |
| OrderedWork.LookFree | async-thread.c:230-247 | and who has still to free and to re-check |
| OrderedWork.CallKeeps | async-thread.c:248-254 | calling the ordered function keeps the invariant |
| OrderedWork.DropPlaces | async-thread.c:252-287 | taking a work off the list keeps the list in queue order and its head unclaimed |
| OrderedWork.DropHands | async-thread.c:252-287 | and at most one worker responsible for each work |
| OrderedWork.DropFree | async-thread.c:252-287 | and exactly one pending free for each work off the list |
| OrderedWork.LeaveKeeps | async-thread.c:288-296 | leaving the loop and freeing oneself keeps it too |
| OrderedWork.RunKeeps | async-thread.c:221-354 | the invariant holds after every schedule |
| OrderedWork.CallsInOrder | async-thread.c:221-254 | over every interleaving ordered functions run one at a time, in exactly the order the works were queued, each once and only after its own function |
| OrderedWork.CallBegins | async-thread.c:230-250 | at the moment of a call no other is in progress and the work is the next in queue order and done |
| OrderedWork.NothingLost | async-thread.c:230-247 | while the head is done and unclaimed some worker has still to look at the list |
| OrderedWork.Quiescent | async-thread.c:221-296 | once all workers are gone the list is empty, every call was made in order and every work was freed exactly once |
| OrderedWork.NoUseAfterFree | async-thread.c:256-294 | no work is freed twice or before leaving the list, and no freed work is touched |
| OrderedWork.SelfFreedLast | async-thread.c:256-294 | a worker frees its own work as its last act, and nobody frees it before |
| OrderedWork.NoDeadlock | async-thread.c:221-296 | while a worker is left some worker can move |
| OrderedWork.StepLowers | async-thread.c:221-354 | every step of a submitted work that is not spent waiting lowers what is left to do |
| OrderedWork.BoundedWork | async-thread.c:221-354 | over every interleaving at most thirty such steps are made per work |
| OrderedWork.FairRunsEnd | async-thread.c:221-354 | from every reachable state, once each work has had enough turns, in any order, all workers are gone, every ordered function was called in order and every work was freed exactly once |
| Refs.IdOrder | delayed-ref.c:207-250 | the comparison of identities is a total order, equal only on the same identity |
| Refs.RefOrder | delayed-ref.c:252-278 | with sequence numbers it is a total order on references |
| Refs.CompRefsLess | delayed-ref.c:207-278 | negative exactly if the first type, or within a type the first of root, object and offset or of the parent, is smaller, and for one identity if the sequence number is |
| Refs.PairCounts | delayed-ref.c:451-468 | merging two entries of one identity keeps its signed count, over all sequence numbers and over every set of them that the bound leaves alone |
| Refs.MergedKeeps | delayed-ref.c:433-478 | a merge keeps these signed counts for every identity and leaves held-back entries alone |
| Refs.MergedSorted | delayed-ref.c:433-478 | and keeps the tree sorted with positive counts |
| Refs.AllSettled | delayed-ref.c:480-508 | when no entry can absorb its successor no identity has two entries below the bound |
| DelayedRefs.InsertOrMerge | delayed-ref.c:582-631 | the branches of the insertion compute the entry's new state and the change of num_entries |
| DelayedRefs.PutCounts | delayed-ref.c:582-631 | inserting changes the signed count of the reference's identity and sequence number by the reference, and no other |
| DelayedRefs.PutAdds | delayed-ref.c:582-631 | ref_add_list stays exactly the ADD entries |
| DelayedRefs.MergeTwo | delayed-ref.c:443-475 | the swap and drop steps of the merge loop compute the merged pair |
| DelayedRefs.MergeNextOk | delayed-ref.c:443-475 | one round of merging keeps the head well formed and all counts |
| DelayedRefs.DelayedRefRoot.FindHead | delayed-ref.c:364-395 | the position has smaller addresses before it and larger ones after; found exactly if the address is there |
| DelayedRefs.DelayedRefRoot.AddHead | delayed-ref.c:784-832 | a new head is put in its place, with length and must_insert_reserved as asked, or the existing one is updated, taking over both if the flag is asked for; nothing else changes |
| DelayedRefs.DelayedRefRoot.FindRef | delayed-ref.c:313-342 | the place of a reference in its tree |
| DelayedRefs.DelayedRefRoot.InsertRef | delayed-ref.c:582-631 | exactly that head changes, as the reference demands, with all counters exact |
| DelayedRefs.DelayedRefRoot.MergeNeighbour | delayed-ref.c:443-475 | two neighbours of one identity are merged and everything else stays |
| DelayedRefs.DelayedRefRoot.MergeRef | delayed-ref.c:433-478 | an entry absorbs its successors until nothing can be merged into it, or an entry was lost |
| DelayedRefs.DelayedRefRoot.MergeDelayedRefs | delayed-ref.c:480-508 | for every metadata head and bound: it ends, every identity keeps its signed count, at every sequence number from the bound on too, held-back entries are untouched, and below the bound every identity has at most one entry |
| DelayedRefs.DelayedRefRoot.AddDelayedRef | delayed-ref.c:890-1074 | the count queued for the extent, the identity and the sequence number changes by one and no other; the extent's head is a new one with the length and flag asked for, or the old one, which takes them over if the flag is set; every other head keeps its own |
| DelayedRefs.DelayedRefRoot.AddExtentOp | delayed-ref.c:1076-1106 | there is a head for the extent, a new one with the length asked for and without the flag, or the old one as it was, and no count changes |
| DelayedRefs.DelayedRefRoot.FindReady | delayed-ref.c:525-553 | the next ready head in cyclic address order, none exactly if all are being processed |
| DelayedRefs.DelayedRefRoot.SelectRefHead | delayed-ref.c:525-560 | that head, and only it, is marked, with counters and start address updated; without one the start address is left at 0 |
| DelayedRefs.DelayedRefRoot.DeleteRefHead | delayed-ref.c:562-574 | the head goes and the counters follow |
| DelayedRefs.DelayedRefRoot.RunAll | delayed-ref.c:364-1106 | over every run of additions, extent operations, merges, selections and deletions of empty heads, each head's ref_mod is the signed sum of its tree, all counters are exact, and what is queued for an identity is the sum of what was added for it, also at each sequence number that no merge reached |
| BlockGroups.TotalsAround | block-group.c:1023-1032 | adding, changing or removing one group changes the sums by exactly its share |
| BlockGroups.TotalsCounted | block-group.c:1012-3845 | each counter is the sum of one kind of bytes over the groups of the space, bytes_readonly is the super bytes and what is unused in read-only groups, and every byte in no counter is unused in a group that can be written |
| BlockGroups.OverlapIs | block-group.c:3085-3108 | the part of a range in a group is the number of the range's bytes in it |
| BlockGroups.Space.IncRo | block-group.c:1157-1217 | marked exactly when no swap extents are held and space allows; the free bytes become read-only with the first mark |
| BlockGroups.Space.DecRo | block-group.c:2478-2502 | with the last mark gone the free bytes are counted free again |
| BlockGroups.Space.AddReserved | block-group.c:3155-3185 | refused exactly for read-only groups; otherwise reserved and may-use move together |
| BlockGroups.Space.FreeReserved | block-group.c:3198-3217 | the bytes go back, to the read-only count if the group is read-only |
| BlockGroups.Space.Unpin | extent-tree.c:2744-2752 | unpinned bytes of a read-only group count as read-only |
| BlockGroups.Space.ResetPinned | block-group.c:1397-1406 | pinned bytes of a group about to be removed count as read-only |
| BlockGroups.Space.IncSwap | block-group.c:3824-3836 | refused exactly for read-only groups |
| BlockGroups.Space.DecSwap | block-group.c:3838-3845 | the swap extents are given up |
| BlockGroups.Space.Remove | block-group.c:1012-1032 | an empty read-only group takes exactly its share of every counter away |
| BlockGroups.Space.AddGroup | space-info.c:255-279 | a new group adds exactly its share |
| BlockGroups.Space.UpdateOne | block-group.c:3085-3108 | bytes of a group turn from reserved to used or from used to pinned |
| BlockGroups.Space.UpdateRange | block-group.c:3038-3141 | it fails exactly if some byte is in no group; otherwise every group changes by its part of the range and the super block's count keeps step |
| BlockGroups.Space.RunAll | block-group.c:1012-3845 | over every run all counters are such sums over the groups and no group is both read-only and holding swap extents |
| BlockRsv.HeldUpdate | block-rsv.c:102-157 | changing one reserve changes what its space's reserves hold by the difference |
| BlockRsv.Reserves.AddBytes | block-rsv.c:313-323 | the reserve gains the bytes, and its size with them or not at all; the guards stay if and only if the delayed-refs reserve is not filled above its size |
| BlockRsv.Reserves.UseBytes | block-rsv.c:298-311 | bytes leave, and the size stays, exactly if the reserve has them |
| BlockRsv.Reserves.Shrink | block-rsv.c:111-121 | the size is cut and the excess set free |
| BlockRsv.Reserves.Offer | block-rsv.c:133-147 | the destination takes what it has room for; the subtraction cannot wrap |
| BlockRsv.Reserves.ReleaseBytes | block-rsv.c:102-157 | excess goes to the destination first, and bytes_may_use of the space falls exactly by what that did not take in |
| BlockRsv.Reserves.Release | block-rsv.c:274-296 | size and content are cut as asked; the excess of the delayed-refs reserve fills the global one, that of any other but the global one fills the delayed-refs reserve, within one space and unless that is marked full, and bytes_may_use falls exactly by what was not taken in |
| BlockRsv.Reserves.Unuse | block-rsv.h:85-91 | a block goes back into its reserve up to its size, and the excess the same way |
| BlockRsv.Reserves.Migrate | block-rsv.c:159-171 | bytes move from one reserve to another, or nothing does; the guards stay if and only if the delayed-refs reserve is not filled above its size |
| BlockRsv.Reserves.ReserveMetadata | space-info.c:1490-1516 | bytes come from the space or, as a fallback, from the global reserve |
| BlockRsv.Reserves.Add | block-rsv.c:211-225 | the reserve grows by what could be reserved |
| BlockRsv.Reserves.Refill | block-rsv.c:244-272 | the reserve is filled up to the minimum, or nothing changes; the guards stay under the same condition |
| BlockRsv.FilledThenEnlarged | delayed-ref.c:100-116 | filling the delayed-refs reserve without its size and then enlarging it leaves it with room, as releasing needs, if and only if the new size covers what it holds |
| BlockRsv.OverfullExample | delayed-ref.c:100-116 | an input for which it does not |
| BlockRsv.Reserves.CondMigrate | block-rsv.c:325-348 | bytes leave the global reserve exactly if enough stays |
| BlockRsv.Reserves.UpdateGlobal | block-rsv.c:388-405 | the global reserve ends full at its new size, at most 512M, bytes_may_use of its space follows, and nothing else changes |
| BlockRsv.Reserves.Unpinned | extent-tree.c:2759-2776 | unpinned space fills the global reserve up to its size unless it is marked full, and bytes_may_use rises by what it took |
| BlockRsv.Reserves.GrowDelayed | delayed-ref.c:100-116 | the delayed-refs reserve's size grows, its content stays, and it is not full |
| BlockRsv.Reserves.MigrateToDelayed | delayed-ref.c:128-165 | bytes move to the delayed-refs reserve up to its size, and bytes_may_use falls by the rest |
| BlockRsv.Reserves.RefillDelayed | delayed-ref.c:176-202 | at most one item's worth is added, never above the size |
| BlockRsv.Reserves.UseBlock | block-rsv.c:483-542 | the block comes from its own reserve, else (the global one refreshed first) from the space, else from the global reserve, which is then the one returned; it fails exactly when none has the bytes or the reserve is failfast, and every reserve is stated exactly |
| BlockRsv.Reserves.Convert | block-group.c:3170-3171 | bytes in use leave bytes_may_use when allocated |
| BlockRsv.Reserves.RunAll | block-rsv.c:102-542 | over every run bytes_may_use is what the reserves hold plus what is in use, a global or delayed-refs reserve that is not full is not above its size, and a full one holds its size |
| Delalloc.CeilSubadditive | delalloc-space.c:269-286 | a ceiling of a sum is at most the sum of the ceilings |
| Delalloc.AlignedExtents | delalloc-space.c:404-419 | rounding a length up to sectors does not change how many extents it needs |
| Delalloc.LeavesSubadditive | ctree.h:5727-5733 | checksum leaves of two aligned lengths together are at most those of each |
| Delalloc.ReserveCovers | delalloc-space.c:230-286 | what is reserved for any write covers the rise of the target, whatever is outstanding |
| Delalloc.LeavesLeast | ctree.h:5727-5733 | the number of checksum leaves is the least with room for a checksum of every sector |
| Delalloc.ExtentsLeast | ctree.h:2612-2615 | the number of extents is the least that covers the length with extents of 128M |
| Delalloc.TargetIs | delalloc-space.c:230-267 | the target covers two nodes on each of 16 levels for every extent and for as many leaves as hold the checksums, and one for the inode if there is an extent, and nothing less does |
| Delalloc.FirstWrite | delalloc-space.c:269-286 | what is reserved for the first write of an inode is exactly what covers it |
| Delalloc.WriteCovered | delalloc-space.c:230-286 | whatever covers the outstanding writes, together with what is reserved for another, covers them all |
| Delalloc.TargetMonotone | delalloc-space.c:230-267 | less outstanding never needs more |
| Delalloc.OtherOrderFails | delalloc-space.c:340-345 | were bytes added before the counts are raised, a release in between would leave the reserve of a new inode below its target, for every non-empty write |
| Delalloc.Inode.RaiseCounts | delalloc-space.c:346-351 | the counts rise by the write, whose bytes are on their way; the size is exactly what covers the new counts |
| Delalloc.Inode.AddBytes | delalloc-space.c:353-354 | the bytes of a write under way arrive |
| Delalloc.Inode.LowerCsum | delalloc-space.c:381-385 | some of a held length is given up, without wrapping; the size is exactly what covers the rest, and the excess stays until it is released |
| Delalloc.Inode.LowerExtents | delalloc-space.c:409-413 | the same for the extents of a write |
| Delalloc.Inode.ReserveMetadata | delalloc-space.c:288-363 | by itself: counts, held lengths and reserve rise by the write; a refusal changes nothing |
| Delalloc.Inode.RsvRelease | delalloc-space.c:206-228 | exactly the excess over the size goes back, the size is exactly what covers the counts, and reserve and pending bytes together still cover them |
| Delalloc.Inode.ReleaseMetadata | delalloc-space.c:376-391 | by itself: the checksum bytes fall by all or some of a held length, and the reserve equals its target unless a reservation is under way |
| Delalloc.Inode.ReleaseExtents | delalloc-space.c:404-419 | by itself: the same for the extents of a held write |
| Delalloc.Inode.ReserveAndRelease | delalloc-space.c:288-419 | reserving and releasing a write restores both counts |
| Delalloc.Inode.RunAll | delalloc-space.c:206-419 | however the steps of reservations and releases interleave, the size is exactly what covers the counts, the reserve with what is on its way covers them, and once all is released all that was granted has been handed back |
| Backref.UnlinkOk | backref.c:2544-2560 | removing an edge, and making a childless parent a leaf, keeps the cache well formed |
| Backref.DropOk | backref.h:344-355 | so does dropping a node without edges |
| Backref.SomeLeaf | backref.c:2579-2583 | going down from any node ends at a leaf or a detached node |
| Backref.Exhausted | backref.c:2587-2595 | a cache without leaves and detached nodes is empty |
| Backref.Cache.AddNode | backref.c:2495-2514 | a start node is added as a leaf |
| Backref.Cache.LinkEdge | backref.h:282-294 | an edge is put on both ends' lists and its parent is no longer a leaf |
| Backref.Cache.UnlinkFirst | backref.c:2544-2560 | exactly the first edge goes, and the parent joins the leaves if it was the last |
| Backref.Cache.DropNode | backref.h:344-355 | a node is dropped only without edges, and leaves both lists |
| Backref.Cache.CleanupNode | backref.c:2534-2563 | exactly the node and its edges to parents are freed |
| Backref.Cache.ReleaseCache | backref.c:2568-2596 | it ends with every node and edge freed exactly once and both counters zero |
| RadixSort.NextDigit | compression.c:1505-1512 | a number's low bits are its top digit and the bits below |
| RadixSort.JoinFalling | compression.c:1550-1568 | a pass on the next digit orders by one digit more |
| RadixSort.JoinStable | compression.c:1550-1568 | a pass keeps numbers with the same low bits in order |
| RadixSort.PassesSort | compression.c:1549-1598 | after n passes: a permutation, falling by the low 4n bits, stable |
| RadixSort.EnoughBits | compression.c:1546-1547 | at most one bit is not looked at, and none exactly unless the highest bit is at a multiple of eight |
| RadixSort.DescendingIff | compression.c:1546-1598 | when one bit may be missing the result is descending if and only if numbers with that bit come first |
| RadixSort.SortedIff | compression.c:1523-1599 | the result is a permutation falling by its low bits, descending if and only if high counts come first, and always when the largest count is below the limit |
| RadixSort.NotAlwaysSorted | compression.c:1546-1547 | any number of zeros followed by 256, the counts of one repeated byte among them, come back unsorted |
| RadixSort.LowAddressIsLarger | compression.c:1505-1512 | of two numbers that agree above a digit, the one sent to the lower address is the larger |
| RadixSort.CountDigits | compression.c:1550-1559 | the counters end at the ends of the buckets |
| RadixSort.DigitPass | compression.c:1550-1568 | placing from the back puts every number into its bucket, in order |
| RadixSort.TwoPasses | compression.c:1549-1598 | a round makes two passes and ends in the original array |
| RadixSort.FindMax | compression.c:1538-1543 | the largest count |
| RadixSort.Sort | compression.c:1523-1599 | the array is a permutation of its input and descending exactly when high counts come first |

## Left out

- Tree locks, block reference counts, readahead and restarts after a dropped lock: tree operations are sequential.
- Copy-on-write of blocks, transactions, the tree modification log and quota groups; block pointers are the subtrees themselves, and allocation of a block never fails.
- Searches that stop above the leaves, and split searches that do not insert.
- The bound on tree height (APFS_MAX_LEVEL).
- The extra free space a root node has for its info structure: one capacity holds for all leaves.
- BTrees.BTree.InsertItem: demands that the item fits an empty leaf (the limit of ctree.h:3914), and BTrees.BTree.InsertItems that the items do; the code stops with BUG() on larger ones.
- BTrees.BTree.ExtendItem: is for an item that is there; after a search for a missing key the callers insert.
- Delete.DelItems: does not say where the path is once the leaf has been merged or deleted; a caller that goes on from it (file.c:1002-1012) first tests whether the leaf is still held, which is not modelled.
- LeafLayout: parents' keys are not part of the leaf; the correction when slot 0 changes is in LowKeys, Insert and Edits.
- LeafLayout.Leaf.TruncateItem: demands that the header of an inline extent is not longer than the new size; LeafLayout.HeaderSpills says what a longer one does.
- Omap.PrevLeaf: only keys of object maps, whose tail is a number; keys with names are not covered.
- Omap.FindOmapPaddr: returns the mapping itself; decoding of the physical address, and the empty map, are not modelled.
- OrderedWork: works without an ordered function, which never touch the list; thresholds and priorities; a work address is not recycled within a run.
- DelayedRefs: running references against the extent tree, extent operations' keys and flags, pending checksum bytes and quota records.
- DelayedRefs.DelayedRefRoot.FindHead: finds the position by a scan; balancing of the red-black trees is not modelled.
- BlockGroups: zoned devices, discard, caching of free space, and the on-disk totals that count copies.
- BlockGroups.Space.AddReserved: demands that the bytes are free in the group, as the allocator has found them.
- BlockRsv: quota reservations and tickets; what __reserve_bytes decides is a parameter.
- Delalloc: bytes used up by finished writes; quota reservations.
- Backref: building the cache by reading backrefs, nodes of trees that are only copied, how nodes come to be detached, and the rb-tree lookup of nodes by address.
- RadixSort: the entropy and core-set heuristics around the sort; an empty array.
- Compression codecs, checksums, block I/O, inode and directory code, and the other files of the driver.

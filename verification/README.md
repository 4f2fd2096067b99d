# A verified model of uterus

uterus keeps market ticks in `ute` files. This project models the parts of the library where that
can go wrong, as Dafny programs that change their state the way the C code does, and proves them
against plain specifications: finite maps, ascending sequences of items, sorted permutations.

- **Double-array trie and symbol table** (`DoubleArray`, `Tails`, `TrieTheory`, `TailReach`,
  `TrieMap`, `TrieWalk`, `Streams`, `TrieIO`, `Slut`). A trie lives in BASE and CHECK cells whose
  free ones form a circular list in the same cells, and in a table of suffixes. Every update keeps
  one finite map from keys to data; walking lists that map in order; writing and reading gives it
  back. The symbol table on top keeps symbols and indices mutually inverse.
- **Interval tree** (`IntervalTheory`, `IntervalMemory`, `IntervalTree`, `IntervalQuery`). A
  red-black tree in linked nodes with the largest upper end of each subtree. Insertion, deletion,
  traversal and the three range searches with their explicit stack and their short cuts.
- **Page sort** (`Merging`, `IndexSort`, `Ticks`, `PageSort`). The three-stage sort of a page of
  ticks of one, two or four sandwiches.
- **The sortedness protocol** (`TickFile`, `FileClose`). How a file knows, after any run of adding
  and flushing, whether it has to go through the global merge, and what closing it leaves.
- **The global merge** (`Strategy`, `GlobalMerge`). A merge that loads pages only when the strategy
  says so. Which ticks come out, and when they come out in order, is stated exactly, in terms of
  the key ranges of the pages alone.
- **Smaller parts** (`Search`, `Calendar`, `Candles`, `Money`). Substring search with a rolling
  XOR, time stamps to dates and back, candles from ticks, and fixed-point prices read from and
  printed as decimal strings. `Basics` has what several parts share.

C objects are classes whose methods update their fields. An array that is only ever extended or
handed over as a whole is a `seq` field; buffers that are sorted in place are arrays. Ghost fields
and ghost parameters carry what the proofs need: the labels of trie nodes, the tree a set of linked
nodes stands for, the ticks taken so far.

Seven promises of the code or its comments do not hold as they stand. In each case the model does
what the code does, and the condition under which the promise is kept is proved:

- A key is found again only if the comparison with its tail stays within reach of a signed 16-bit
  position (`TrieMap.Trie.Retrieve`, `TrieMap.LongKeyLost`). Keys of at most 0x8000 characters
  always are.
- A trie comes back from a file with the same contents only if no suffix has 0x8000 characters or
  more (`TrieIO.TrieThereAndBack`, `TrieIO.LongKeyUnreadable`).
- A search can pass over intervals that match if they, or the range to be covered, end before they
  start (`IntervalQuery.Find`, `IntervalQuery.ReportedIffReached`, `IntervalQuery.ReversedMissed`).
- A price that is printed and read again keeps its value only if its digits fit the exponent
  that so many digits get (`Money.PrintAndRead`).
- A price without integral digits is read two too low if it has four digits or more behind the
  point (`Money.GetS`, `Money.LongQuarter`).
- Candles hold ticks from before their interval if a tick from before the offset opens their bucket
  (`Candles.MakeCandles`, `Candles.PlacedByCell`, `Candles.EarlyTick`).
- `ute_sort` loses the ticks of pages that meet no page whose range is within no other, and the
  stream of ticks that it emits can be out of order; closing the new file then sorts that one again.
  Both happen only with pages of equal ranges (`GlobalMerge.UteSort`, `GlobalMerge.TwinsLost`,
  `GlobalMerge.TwinsDisordered`, `Strategy.DistinctIsCovered`, `GlobalMerge.RightRanges`).

`dafny verify dfyconfig.toml` checks the whole project.

## Model

| member | source | states |
|---|---|---|
| `DoubleArray.DArray.constructor` | src/darray.c:177-199 | An empty pool: one branching root, three cells, all invariants of the cells in place. |
| `DoubleArray.DArray.Walk` | src/darray.c:422-432 | Finds the child along a symbol if and only if the tree has that arc, and stays where it is otherwise. |
| `DoubleArray.DArray.InsertBranch` | src/darray.c:448-499 | After it the tree has exactly one node more, below s along c, whatever had to be moved to make room; an arc that exists is returned with nothing changed; it fails only when the pool has reached the largest index, and then the tree is as before. |
| `DoubleArray.DArray.HasChildren` | src/darray.c:508-524 | True if and only if some node has s as its parent. |
| `DoubleArray.DArray.OutputSymbols` | src/darray.c:527-543 | The symbols of exactly the arcs that leave s, in ascending order. |
| `DoubleArray.DArray.FindFreeBase` | src/darray.c:582-616 | The search ends, with a base of at least 3 at which the cells for all the symbols are free, or with an error only when the pool is at the largest index; allocated cells are untouched. |
| `DoubleArray.DArray.FitSymbols` | src/darray.c:619-635 | Yes only if every cell for the symbols is free; no only if the index range ends there or one of the cells belongs to a node. |
| `DoubleArray.DArray.RelocateBase` | src/darray.c:638-685 | Moving all children of s to a new base, grandchildren re-parented, leaves the tree of labels and leaf values exactly as it was, keeps the handles of all nodes but those children, and keeps every invariant of the cells. |
| `DoubleArray.RelocationDone` | src/darray.c:638-685 | The cells after all children have moved are a renaming of the cells before: the invariant holds for the renamed nodes and the tree they spell is equal. |
| `DoubleArray.RelocationFrame` | src/darray.c:638-685 | Only children of s change their index, and free cells at the new base that no child needs stay free. |
| `DoubleArray.DArray.ExtendPool` | src/darray.c:688-721 | Succeeds exactly for indices below the largest one; the new cells join the one circular ascending list of free cells, and all nodes are as before. |
| `DoubleArray.ExtendKeepsList` | src/darray.c:688-721 | The free list stays circular, doubly linked and ascending, with exactly the old free cells and the new ones in it. |
| `DoubleArray.DArray.FreeCell` | src/darray.c:779-797 | The freed cell joins the ascending free list at its place, no other cell joins or leaves, and used cells keep their contents. |
| `DoubleArray.RelinkKeepsList` | src/darray.c:779-797 | Linking a cell in between two neighbours of the free list gives a free list with exactly that cell more. |
| `DoubleArray.DArray.AllocCell` | src/darray.c:765-776 | The cell leaves the free list: its neighbours are linked to each other and all other cells are unchanged. |
| `DoubleArray.DArray.PruneUpto` | src/darray.c:752-762 | Takes off exactly the childless branch that ends at s, up to a node that still has children or to p. |
| `Tails.Tail.AllocBlock` | src/tail.c:328-345 | Hands out the first block of the chain of freed ones, or a new one at the end when the chain is empty; other blocks are unchanged. |
| `Tails.Tail.FreeBlock` | src/tail.c:348-379 | The freed block joins the ascending chain and is reachable again, except that freeing the first block of the table cuts off the whole chain, since its number is also the end mark. |
| `Tails.Tail.SetSuffix` | src/tail.c:287-305 | Only the suffix of that block changes. |
| `Tails.Tail.AddSuffix` | src/tail.c:318-325 | A block that was not in use now holds the suffix, all blocks in use are as before. |
| `TrieMap.AlphabetRoundTrip` | src/trie.c:77-86 | The two alphabet maps are inverse to each other for every character but 0x1f. |
| `TrieMap.EncodeDecode` | src/trie.c:89-112 | Keys of bytes 0x20 to 0x7f survive the translation to trie symbols and back. |
| `TrieMap.Trie.constructor` | src/trie.c:172-196 | A new trie stands for the empty map, and no symbol leads anywhere. |
| `TrieMap.Trie.WalkBranches` | src/trie.c:419-428 | Ends at the one separate node on the way along the key, or where no arc leads on, in which case the key is not stored. |
| `TrieMap.Trie.WalkTail` | src/trie.c:430-441 | The comparison leaves the suffix if and only if the rest of the key and the suffix agree on 0x8000 symbols; otherwise it says whether the key is stored. |
| `TrieMap.Trie.CompareTail` | src/tail.c:496-512 | The loop over tail_walk_char with its 16-bit position: reads outside exactly when 0x8000 symbols agree and the key goes on, otherwise equality of the rest and the suffix. |
| `TailReach.ClearInReach` | src/trie.c:430-441 | The comparison stays within the suffix if no stored key shares its first 0x8001 symbols with the key looked for. |
| `TailReach.HeadOverruns` | src/trie.c:549-568 | A key that does not share its first symbol runs out of its own suffix if and only if it has more than 0x8000 symbols. |
| `TrieMap.Trie.Retrieve` | src/trie.c:413-448 | Answers as the finite map does, unless the comparison leaves the suffix, which happens exactly under the stated condition and never for keys of at most 0x8000 symbols. |
| `TrieMap.Trie.StoreMaybe` | src/trie.c:494-546 | The map afterwards differs at this key alone, or not at all; refused if and only if the key is there and must not be overwritten, or the pool is at the largest index; under the same condition the comparison leaves a suffix, and then nothing has changed. |
| `TrieMap.Trie.Store` | src/trie.c:464-467 | The map with this key set; with room in the pool it does not fail. |
| `TrieMap.Trie.StoreIfAbsent` | src/trie.c:488-491 | A key that is there keeps its datum. |
| `TrieMap.Trie.BranchInBranch` | src/trie.c:549-568 | Storing below a branch adds exactly the one key; a failure changes nothing. |
| `TrieMap.Trie.BranchInTail` | src/trie.c:571-611 | Splitting a tail adds exactly the one key and keeps the old one; a failure part of the way undoes every branch it has made. |
| `TrieTheory.BranchStored` | src/trie.c:549-568 | A new arc with a tail of its own represents the old map with the one key more. |
| `TrieTheory.PushedDown` | src/trie.c:583-604 | A separate node moved down its own suffix represents the same map. |
| `TrieTheory.ChainUndone` | src/trie.c:606-610 | Pruning the new chain and putting the old tail index back gives the tree as it was. |
| `TrieTheory.KeyDeleted` | src/trie.c:654-657 | Freeing the tail and pruning the node represents the map without exactly that key. |
| `TrieMap.Trie.Delete` | src/trie.c:624-661 | Succeeds if and only if the key is stored, and removes exactly that key; out of reach as Retrieve. |
| `TrieMap.BackFromEmpty` | src/trie.c:413-467 | A key put into an empty trie comes back with its datum if and only if it has at most 0x8000 symbols. |
| `TrieMap.LongKeyLost` | src/tail.c:496-512 | 32769 times the letter a: stored, and looking it up reads outside of the suffix. |
| `TrieWalk.Walk` | src/trie.c:670-725 | Calls back with the entries of the map, each once, in strictly ascending key order. |
| `TrieWalk.WalkRecursive` | src/darray.c:820-847 | Visits exactly the separate nodes below a state, in ascending order of their labels. |
| `TrieWalk.GetStateKey` | src/darray.c:546-579 | Tracing CHECK to the root and reversing gives the label of the node. |
| `Streams.Stream.Write` | src/fileutils.c:91-115 | Appends the bytes, growing the memory if need be. |
| `Streams.Stream.Read` | src/fileutils.c:69-88 | Gives as many whole items as there are and moves on by them. |
| `Streams.Word32RoundTrip` | src/fileutils.c:123-146 | A 32-bit word written is read back. |
| `Streams.BigEndian32` | src/fileutils.c:137-146 | A 32-bit word is stored with its most significant byte first. |
| `Streams.BigEndian16` | src/fileutils.c:161-169 | So is a 16-bit one. |
| `TrieIO.SuffixSurvives` | src/tail.c:171-180 | The 16 bits of its length give a suffix back if and only if it has fewer than 0x8000 characters. |
| `TrieIO.BlockThereAndBack` | src/tail.c:155-240 | For a suffix of any length: the reader writes outside its buffer if the 16-bit length is negative, else the block comes back with its suffix cut to that length. |
| `TrieIO.CellsThereAndBack` | src/darray.c:234-318 | The cells written are the cells read, with nothing of what follows consumed. |
| `TrieIO.TailThereAndBack` | src/tail.c:130-256 | The tail table written is read back block by block if no 16-bit length is negative, and runs outside a buffer otherwise. |
| `TrieIO.TrieThereAndBack` | src/trie.c:223-318 | For every trie with 32-bit data: it is read back if and only if no 16-bit length is negative, what is read is a sound trie again, and it has the same contents if and only if all suffixes have fewer than 0x8000 characters. |
| `TrieIO.Mwrite` | src/trie.c:358-376 | What is written is the image of the state, which stays as it is, and the dirty mark goes. |
| `TrieIO.ImageLayout` | src/darray.c:276-318 | An image begins with the bytes DA FC DA FC and the number of cells, and the tails are behind the last cell. |
| `TrieIO.CellsLayout` | src/darray.c:294-318 | Each cell takes eight bytes, BASE before CHECK. |
| `TrieIO.TailLayout` | src/tail.c:214-222 | The tails begin with the bytes DF FC DF FC, the first free block and the number of blocks. |
| `TrieIO.BlockLayout` | src/tail.c:223-243 | Each block is its link, its datum, the length of its suffix and then the suffix. |
| `TrieIO.Mread` | src/trie.c:224-289 | What the reader makes of whatever a trie with 32-bit data has written: a valid trie or a write outside its buffer, and the same contents if and only if all suffixes have fewer than 0x8000 characters. |
| `TrieIO.LongLost` | src/tail.c:155-180 | A key whose suffix is cut is not in the trie that is read back. |
| `TrieIO.ShortKeys` | src/tail.c:225-240 | With keys of fewer than 0x8000 characters all suffixes are that short. |
| `TrieIO.LongKeyUnreadable` | src/tail.c:155-180 | 32769 times the letter a is stored and written, and the reader writes outside its buffer. |
| `Slut.ResizeMakesRoom` | src/uteslut.c:84-103 | The resized table has a slot for an index if and only if the index fits 16 bits. |
| `Slut.SymbolTable.Sym2Idx` | src/uteslut.c:156-189 | A known symbol keeps its index, a new one gets the next; indices are exactly 1 to n, each leads to one symbol, and no two to the same. |
| `Slut.SymbolTable.Idx2Sym` | src/uteslut.c:192-199 | The symbol at that position, and none for 0 or beyond the last. |
| `Slut.SymbolTable.Seria` | src/uteslut.c:267-271 | Writes the image of a trie that holds exactly the symbols with their indices; the table is as before. |
| `Slut.SymbolTable.Deser` | src/uteslut.c:231-264 | The table read back from what another one has written has the same symbols with the same indices. |
| `Slut.ListsSymbols` | src/uteslut.c:231-248 | The enumeration of the trie names every index once, with its symbol. |
| `IntervalTree.Tree.Rotate` | src/intvtree.c:307-355 | A rotation keeps the nodes in order, the links and the largest upper ends of all subtrees. |
| `IntervalTree.Tree.Add` | src/intvtree.c:358-446 | The items afterwards are those before with the new one in its place behind those of equal lower end; order, colours, black heights, links and upper ends hold again. |
| `IntervalTree.Tree.InsFixup` | src/intvtree.c:393-446 | Recolouring and rotations make a red-black tree of one with a red node below a red one, with the same items in the same order. |
| `IntervalTree.Tree.DelFixup` | src/intvtree.c:527-588 | Makes a red-black tree of one that lacks a black node on one side, with the same items in the same order. |
| `IntervalTree.Tree.DelNode` | src/intvtree.c:591-646 | The items afterwards are those before without the one node; order, colours, black heights, links and upper ends hold again. |
| `IntervalTheory.MaxIsMax` | src/intvtree.c:165-176 | The upper end kept at a node is that of some node below and at least that of each. |
| `IntervalQuery.TravInOrder` | src/intvtree.c:676-721 | Calls back with every node once, in ascending order of the lower ends, and never has more than 128 entries on its stack. |
| `IntervalQuery.ShortCut` | src/intvtree.c:700-712 | Below a node that lacks a child there are only single nodes. |
| `IntervalQuery.HeightUpto64` | src/intvtree.c:52-52 | Fewer than 2^32 nodes make a tree at most 64 high. |
| `IntervalQuery.Find` | src/intvtree.c:748-1005 | Of the intervals that do not end before they start, the search for a point finds exactly those that have it, the search inside a range exactly those whose points are all in it, and the search around a range exactly those that have all its points, each once and in order. All matching intervals of whatever kind are found if and only if each is reached. |
| `IntervalQuery.ReportedIsMatching` | src/intvtree.c:736-745 | What the search reports is all that matches, when whatever matches neither starts behind the range nor ends before it. |
| `IntervalQuery.ReportedIffReached` | src/intvtree.c:830-909 | All that matches is reported if and only if on the way to each match, up to where the short cut is taken, no node has all its intervals end too early, and none starts too late unless the way goes to its left. |
| `IntervalQuery.ReportedMatches` | src/intvtree.c:756-763 | Whatever the search reports is in the tree and matches. |
| `IntervalQuery.MeetingReported` | src/intvtree.c:736-745 | An interval that matches and meets the range is reported, whatever else is in the tree. |
| `IntervalQuery.ReportedOnce` | src/intvtree.c:748-1005 | What is reported is in order, and nothing is reported twice. |
| `IntervalQuery.ReversedMissed` | src/intvtree.c:830-909 | A tree with the one interval from 10 to 3: it matches the search for intervals inside 0 to 5, and the search reports nothing. |
| `IntervalQuery.SeekLeft` | src/intvtree.c:863-868 | Whenever the search goes left from a node past the range its stack is empty, so that running into nil ends it without losing anything. |
| `IntervalQuery.SuccOf` | src/intvtree.c:450-485 | The node after x in order, nil behind the last one. |
| `IntervalQuery.PredOf` | src/intvtree.c:489-524 | The node before x in order, nil before the first one. |
| `Merging.MergeSorted` | src/utetpc.c:470-495 | The merge of two ascending sequences is ascending. |
| `Merging.MergeMultiset` | src/utetpc.c:470-495 | A merge has the elements of both sequences, each as often. |
| `IndexSort.PornsortFour` | src/utetpc.c:300-431 | Any four pairs come out in ascending order of their keys, the same four. |
| `IndexSort.PornsortPerm` | src/utetpc.c:300-346 | Four pairs, after swaps of neighbours, are put in order by the permutation it returns, which is one that the second step knows. |
| `IndexSort.MergeUp` | src/utetpc.c:470-495 | Writes the merge of two neighbouring runs and nothing else. |
| `IndexSort.MergeAll` | src/utetpc.c:498-531 | Rounds over the two halves of the scratch end with one ascending run of the same pairs at the front. |
| `Ticks.WholeIsGood` | src/utetpc.c:121-134 | Cutting a page at the sizes that its ticks name gives whole ticks that together are the page. |
| `Ticks.SizeByType` | src/scommon.h:409-424 | A tick is one sandwich without size flags, two with the flag 16, and four with the flag 32 alone. |
| `PageSort.IdxSort` | src/utetpc.c:538-599 | The keys of up to 256 ticks in ascending order, each with the place of its tick, behind zeros that fill up to a power of two. |
| `PageSort.Collate` | src/utetpc.c:602-642 | Copies whole ticks in the order of the pairs: ascending and the same ticks. |
| `PageSort.MergeBup` | src/utetpc.c:645-689 | Writes the merge of two runs of ticks, ties from the left run. |
| `PageSort.BupRound` | src/utetpc.c:692-712 | One round merges neighbouring runs pairwise, notes the joint sizes in the offsets and leaves offsets behind the last run zero. |
| `PageSort.RightRunInTable` | src/utetpc.c:692-712 | The offset of the right-hand run is always within the table. |
| `PageSort.SeekSort` | src/utetpc.c:979-1084 | Any page of whole ticks becomes a page of the same ticks, payload and all, in ascending key order. |
| `TickFile.UteFile.constructor` | src/utefile.c:1811-1877 | A new file holds nothing and has no mark set. |
| `TickFile.UteFile.Load` | src/utefile.c:1611-1677 | The last page of a file in order becomes the current one, with bookkeeping that fits what has been flushed. |
| `TickFile.UteFile.TpcAdd` | src/utetpc.c:156-193 | Takes the tick unless it does not fit or has key 0; a key below the least one allowed sets the mark. |
| `TickFile.UteFile.Flush` | src/utefile.c:2024-2041 | The page goes out in ascending order with the ticks it had; a page marked as reaching below flushed keys marks the file. |
| `TickFile.UteFile.AddTick` | src/utefile.c:2066-2095 | Takes every tick with a sane type and a key other than 0. The page is flushed if and only if the tick does not fit on it, and goes out with the same ticks in order; else nothing but the page changes. A tick below a flushed key gets the file marked by the next flush at the latest. |
| `TickFile.HoldsAll` | src/utefile.c:1131-1138 | With nothing on the current page the flushed pages hold exactly what was taken, the last key bounds them all, and without a mark they are in ascending order; for a file begun empty the mark is set only if they are not. |
| `TickFile.UteFile.SortDue` | src/utefile.c:1965-1988 | After any run: no sort due means all pages together are in ascending order; for a file begun empty a sort is due if and only if they are not. |
| `TickFile.TwoOnAPage` | src/utefile.c:2066-2095 | Keys 5 and 3 put into a new file come out in order on one page, and no sort is due. |
| `TickFile.KeptFlush` | src/utefile.c:816-823 | Flushing a page keeps the relation between the marks and what has been flushed. |
| `Strategy.DistinctIsCovered` | src/utesort.c:193-253 | With pairwise different key ranges every page lies within one that is on top. |
| `Strategy.MeetingPages` | src/utesort.c:237-243 | The three searches find between them exactly the pages whose ranges meet that of the node's page. |
| `Strategy.NodePages` | src/utesort.c:222-243 | The pages they find, with the node's own once, fill exactly the space allocated for them. |
| `Strategy.SortStrat` | src/utesort.c:311-373 | A node for every page within no other, from left to right, each with exactly the pages that meet its own; or one node for all pages if each lies within another. |
| `GlobalMerge.MinRun` | src/utesort.c:489-509 | The last one of the seeks with the smallest key, or none without seeks. |
| `GlobalMerge.LoadRun` | src/utesort.c:442-486 | Loads the pages of a node that have not been loaded before; the seeks never exceed the space for the largest node. |
| `GlobalMerge.StepRun` | src/utesort.c:518-552 | A step keeps the run invariant: the loaded pages are those of the nodes so far, all seeks are of the current node, and the pages of later nodes are not done. |
| `GlobalMerge.TopsLast` | src/utesort.c:518-552 | The page that is done first is not the page of a later node, so that every node is reached. |
| `GlobalMerge.NewBehind` | src/utesort.c:518-552 | A page loaded with the next node starts behind everything that is out, unless it is overtaken. |
| `GlobalMerge.Spoils` | src/utesort.c:518-552 | If a page is overtaken, a larger key is out before the page is loaded. |
| `GlobalMerge.UteSort` | src/utesort.c:555-647 | The ticks of exactly those pages that meet one on top come out, each once; nothing is lost if and only if every page meets one; and they come out in ascending order if and only if no page is overtaken, a condition on the key ranges of the pages. |
| `GlobalMerge.LostIfUntouched` | src/utesort.c:555-647 | The ticks out are all ticks if and only if every page meets one on top, or none is on top. |
| `GlobalMerge.OvertakenEither` | src/utesort.c:311-373 | Being overtaken along the strategy is being overtaken in terms of the ranges alone. |
| `GlobalMerge.RightRanges` | src/utesort.c:555-647 | If every page lies within one on top, or no page is on top, nothing is lost and no page is overtaken. |
| `GlobalMerge.TwinsLost` | src/utesort.c:217-221 | Two pages from 5 to 10 and one from 12 to 15 go through the merge: of six ticks two come out. |
| `GlobalMerge.TwinsDisordered` | src/utesort.c:518-552 | Two pages from 3 to 13, one from 1 to 4 and one from 8 to 15 go through the merge and come out of order. |
| `FileClose.UteClose` | src/utefile.c:1965-1988 | Whatever was put into a file: closing sorts it if and only if the marks say so, and the pages in the end are in ascending order if and only if the new file is not marked again, which it is not if no page was overtaken; all ticks are kept if and only if every page met one on top. |
| `FileClose.SortInto` | src/utesort.c:555-647 | The merge into a new file: the same for the pages given. |
| `Search.SumSlides` | src/nifty.c:84-88 | Taking the first char of a window out of the XOR and the one behind it in gives the XOR of the next window. |
| `Search.AllButLast` | src/nifty.c:90-96 | With equal XORs two windows are equal if and only if all but their last chars are. |
| `Search.Xmemmem` | src/nifty.c:42-97 | The leftmost occurrence of the needle; nothing if and only if there is none. |
| `Calendar.CloserGuess` | src/timegm.c:84-92 | A year guessed wrong is followed by a guess that is closer, so that the loop ends. |
| `Calendar.FindYear` | src/timegm.c:78-92 | The year a day falls into and the day in that year. |
| `Calendar.GmTime` | src/timegm.c:64-123 | For every time stamp from 1970 on all fields are in range, the day of the month is at most the length of that month, the day of the year adds up the lengths of the months before and the day of the month, the day of the week is right, and ffff_timegm gives the stamp back. |
| `Calendar.TableAddsUp` | src/date.h:146-151 | The table of days adds up months of 31, 30 and 28 or 29 days. |
| `Calendar.MonthEnds` | src/timegm.c:64-123 | The last second of February 2000 and the first one of 31 January 1970 get their dates. |
| `Calendar.SecondBefore` | src/timegm.c:55-60 | A leap second gets the stamp of the second before it, 24 o'clock that of the second before midnight. |
| `Calendar.DatesDiffer` | src/timegm.c:42-62 | Sound dates with the same time stamp are the same. |
| `Candles.PushSums` | src/ute-chndl.c:117-189 | Pushing a price keeps open, high, low, close and count those of the prices so far. |
| `Candles.IntervalCovers` | src/ute-chndl.c:304-320 | A stamp lies in the interval made for it if and only if it is not before the offset, or whole intervals before it. |
| `Candles.Bucketiser.Bucketise` | src/ute-chndl.c:440-475 | One more tick, early or late, keeps the run invariant: the bucket and the candles written sum up exactly what got into their buckets, no bucket with a price in it lacks its candle, and no price is lost. |
| `Candles.MakeCandles` | src/ute-chndl.c:617-635 | Over any file, a symbol with a bid or an ask in a bucket gets exactly one candle of bids and one of asks for it, and one of trades if and only if it has a trade. Open and close are the first and the last price quoted on that side in the bucket, high and low the largest and smallest, and the counts add up to the prices there were. Of ticks in order of time each candle sums up exactly the prices of its symbol and side in its interval if and only if every tick with a price gets into the bucket of its interval. |
| `Candles.PlacedByCell` | src/ute-chndl.c:304-345 | Ticks in order of time that all have prices do so if and only if each one from before the offset comes with or after one exactly at the start of its interval. |
| `Candles.PlacedFromOffset` | src/ute-chndl.c:304-345 | Ticks in order of time from the offset on always do. |
| `Candles.InBucket` | src/ute-chndl.c:332-345 | Of ticks in order of time all that are within the interval of a bucket get into it. |
| `Candles.PutIsMore` | src/ute-chndl.c:440-475 | A tick that does not leaves its bucket with more prices than there are in its interval. |
| `Candles.EarlyTick` | src/ute-chndl.c:304-320 | A bid at 95 with the offset 100 and the interval 10 gives a wrong candle. |
| `Money.RoundedIsClose` | src/m30.c:85-199 | Reading a fraction to four or eight places is right to half a unit, however many digits follow. |
| `Money.GetS` | src/m30.c:201-264 | For every string: where the number ends, its exponent, and its mantissa. The number to half a unit for the two small exponents, its leading digits for the two large ones, up to 5368709120000; beyond that the leading digits wrapped to 30 bits; and two too low with four digits or more behind a point that comes first. |
| `Money.PointAsDigit` | src/m30.c:146-199 | A point taken for a digit makes the reading two too low, to half a unit. |
| `Money.Quarter` | src/m30.c:201-264 | The string .25 is read as 2500 at exponent 1. |
| `Money.LongQuarter` | src/m30.c:146-264 | The string .2500 is read as -175000000 at exponent 0, which is -1.75. |
| `Money.LargeRoundsDown` | src/m30.c:57-83 | What is read for the two large exponents is the number rounded down. |
| `Money.Print` | src/m30.c:327-373 | Sign, integral digits without leading zeros and as many fraction digits as the exponent has, which together are the mantissa; the mark for market orders; and for the mantissa whose negative does not fit exactly the characters that its negative remainders give. |
| `Money.PrintAndRead` | src/m30.c:201-373 | Printing a price and reading it again keeps its value if and only if the mantissa is small enough for its exponent or a multiple of 10000, and always for the largest exponent; all that was printed is read. |

## Left out

- DoubleArray.DArray.InsertBranch: indices are unbounded integers; that the sum of a base and a symbol stays below the largest 32-bit value is not stated.
- TrieMap.Trie.StoreMaybe: says nothing of what happens after a read outside of a suffix, since the C standard does not; the model stops there with nothing changed.
- TrieWalk.Walk: a callback that asks to stop is not modelled, the walk goes to the end.
- IntervalQuery.TravInOrder, IntervalQuery.Find: what the callback is called with is returned as a sequence; callbacks that change the tree are not modelled.
- TickFile.UteFile.Load: takes the true last tick of the page where the code looks for it with algn_tick, which guesses where a tick begins from its payload.
- TickFile.UteFile.Load: requires the ticks of the file in ascending order, as ute_close leaves them; the code takes any file for one in order.
- TickFile.UteFile.TpcSort: the page space is a sequence that is sorted by way of an array of its own; only PageSort works on the array in place.
- GlobalMerge.UteSort: the pages are given as sequences of ticks; which pages are loaded is a sequence of booleans, not bits in words; load_runs of 64 pages at a time, which only finds the key ranges, is one pass.
- FileClose.UteClose, FileClose.SortInto: when the file that ute_sort has filled is marked again, closing it sorts that one, too; the model returns the mark with the pages and does not follow this further. That the mark is clear is known beforehand only if no page is overtaken, since a disorder within one new page is mended when that page is flushed.
- GlobalMerge.UteSort: ends with the ticks it adds to the new file; closing that file is FileClose.SortInto.
- FileClose.UteClose: compression, the footer, the header and stream mode.
- TrieIO.Mread: reads only what Mwrite has written; the parsers are total, but no promise is made for other input. A FILE in place of memory is not part of this model.
- Slut.SymbolTable.Sym2Idx: new symbols have fewer than 64 characters of 0x20 to 0x7f; slut_bang, which may put a symbol over another, is not part of this model.
- IntervalTree.Tree.DelNode: the memory of a node is not given back; nil and the root have numbers of their own.
- itree_find_point and itree_find_point_cb1: they do not search the left subtree.
- ute_add_tick_as and tpc_add_as: the tick written differs from the one whose key is tracked.
- Allocation failure, mutexes, byte order, page offsets in a file and LZMA compression.
- Stepwise walking of a trie with a state of its own (trie_state_walk and its like) is not modelled.
- Candles.MakeCandles: ticks that are candles or snapshots themselves are not modelled, nor is the symbol table of the output; counts are unbounded.
- Calendar.GmTime: stamps before 1970, for which the code gives negative hours and seconds and which its comment leaves out (src/timegm.c:83), are not modelled; days and years are unbounded.
- Conversions of prices from and to floating point, and local time.
- Muxers, printers, language bindings and option parsing.

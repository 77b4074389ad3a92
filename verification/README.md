# Verification of the heap allocators and of the JSON reader and writers

Models in Dafny 4.11 of three parts of the repository, and proofs about them. `dafny verify dfyconfig.toml` checks
everything.

**The boundary-tag allocator** of `heap-allocator/README.md` (`boundary_tag.dfy`, `segment_allocator.dfy`). Memory is a
map from word addresses to headers and raw words, and the class `Allocator` changes it as `malloc.c` does. The invariant
says that blocks tile every segment, that every previous-in-use bit and every footer is right, that no two free blocks
touch, and that every listed segment has a block in use.

**The tiered allocator** of `heap-allocator/src`, in layers:

- `heap_sizes.dfy`: size classes, slots, tiers and span sizes;
- `chunk_list.dfy`: intrusive circular lists as link memory, each operation refining one on sequences;
- `system_pages.dfy`, `radix_tree.dfy`: page mappings, and the three-level table in mapped nodes;
- `heap_state.dfy`, `heap_steps.dfy`: the state of the heap, its invariant, and what every step does and keeps;
- `heap_calls.dfy`: what a whole call does to the state, written out with its numbers;
- `tiered_heap.dfy`: the class `Heap`, whose methods are `Span::Split` and `Merge`, the page cache, the thread caches, the
  central cache, `MyMalloc` and `MyFree`, each proved to make one of the steps. Ghost fields record which blocks are on
  loan, which cache holds a span, and which blocks are lost;
- `heap_locks.dfy`: any number of threads on that state, each locked section and each operation of a thread in its own cache
  a step; `heap_guards.dfy`: why that grain is right; `heap_lookup.dfy`: the page table, and the lookups of `MyFree`;
  `heap_solo.dfy`: a thread that runs alone makes the calls of `heap_calls.dfy`.

**The JSON code** of `jsoncpp.cpp`:

- `json_text.dfy`, `json_string.dfy`, `json_number.dfy`: UTF-8 (RFC 3629), quoting and unescaping, integers;
- `json_value.dfy`: values and their comparison;
- `json_lexer.dfy`, `json_parser.dfy`: tokens and grammar as functions of the text; `json_reader.dfy`: the class
  `OurReader` with its cursor, node stack and error list, proved to agree with them on every text;
- `json_layout.dfy`, `json_lexemes.dfy`, `json_documents.dfy`: texts that lay out tokens with any white space, how they are
  read and scanned;
- `json_grammar.dfy`: the grammar of RFC 8259 as such texts, and what its strings denote; `json_meaning.dfy`: what the other
  tokens, arrays and objects mean;
- `json_accepts.dfy`, `json_spelled.dfy`: which texts exactly the reader accepts, and with which values;
- `json_fast_writer.dfy`, `json_styled_writer.dfy`: both writers, proved to print particular layouts;
  `json_texts.dfy`: these texts written out;
- `json_round_trip.dfy`, `json_ranges.dfy`: what comes back, which lexemes are printed, and the recorded source ranges.

`wrappers.dfy` holds the option type they share.

## Conventions

A C++ byte string is a Dafny string, with `Bytes` where its characters must be bytes. Bit operations are written as
division and remainder. 32-bit and 64-bit arithmetic wraps where the source lets it: `AlignUp`, `BlockBytes`, `OverMargin`.
The boundary-tag allocator is in 8-byte words. Addresses of the tiered allocator are bytes, page ids have 36 bits.

`mmap` may fail, and failures are counted. In the boundary-tag allocator a call answers 0, or -1, exactly when one has failed.
The tiered allocator does not check: there a method that meets a failed `mmap` stops with `None` or false, and does so only
then; about the heap it then leaves, nothing is said.

Where the code does not do what one might expect, the code is modelled and the exact condition is proved:

- `malloc` of the boundary-tag allocator wraps for requests above 2^64 - 16 (`BlockServesRequest`).
- Negative requests are huge in the comparison with a `size_t` and go to the system tier (`RequestTier`).
- Requests that align to 65536 are served and taken back by different caches or trip an assertion, and blocks of 524224
  bytes are never taken back (`TiersAgree`, `BlocksCounted`, `LoseKeeps`).
- `FetchPages` adds the page shift where the page size was meant, so the quotient is rounded down, and the header is not
  counted: the span never holds the `min_num` blocks it is fetched for, whatever the size (`FetchFallsShort`), but at least
  two (`ThreadSpans`).
- `StyledWriter` passes keys as C strings, which cuts them at a NUL: a value with a NUL in a key never comes back
  (`StyledRoundTrip`, `SameLexemes`, `CutUnseen`).
- Integers other than those of RFC 8259 are a lone minus sign, read as 0, and those with leading zeros (`IntegersRead`,
  `LoneMinusAndLeadingZero`).
- Other number tokens that are not of the grammar, such as `1.`, are left to the double reader, whose answer is a parameter
  (`WordOfText`, `DecodeNumber`).
- Strings may have control characters, and are refused for an escaped high surrogate without a partner (`StringTokens`,
  `RfcStringReads`). Any escape with four digits is taken for the partner: its low ten bits count (`RfcStringDenotes`).
- Behind a comment any token but a closing brace is taken for the comma between two members; and a trailing comma is taken
  behind an empty key where it should not be. Comments are refused before a colon and between the brackets of an empty array
  (`AcceptedExactly`).
- A NUL behind a document ends it: any text may follow, even if extra text is refused (`NulEndsDocument`,
  `AcceptedDocument`).
- A C comment at the end of the text may end with a slash alone (`CommentCloses`).
- Unsigned integers up to 2^63 - 1 come back signed, and strings that are not UTF-8 come back repaired
  (`ReadBackUnchanged`).

Preconditions taken over from the source: `MyFree` of a thread-tier block runs on the thread that took it
(`heap-allocator.cpp:12,73`), because the thread cache is thread-local; and `GetValue` needs both interior slots of its key,
which `Resolves` provides for every block on loan.

## Model

The rows of the first group, down to `JsonRanges.DocumentRanges`, are the main results; the others are what they rest on,
module by module.

| member | source | states |
|---|---|---|
| `SegmentAllocator.FreeStep` | heap-allocator/README.md:179-229 | Freeing a block keeps the whole heap well formed, and every other block in use with its contents |
| `SegmentAllocator.StoreStep` | heap-allocator/README.md:60-267 | Whatever a client writes into the blocks it holds, the heap stays well formed |
| `SegmentAllocator.NothingIsLost` | heap-allocator/README.md:179-267 | Once all small blocks have been freed, in whatever order, no segment is mapped any more; and conversely; a mapping stays exactly as long as a block in it is in use |
| `SegmentAllocator.Allocator.Malloc` | heap-allocator/README.md:60-75 | 0 is returned exactly when an mmap has failed, and no more than one does; a request that a free block can answer never calls mmap; the block is new, large enough, and no block in use is touched. Below 262144 bytes it is cut from the front of a free block, or of a new segment of 262144 words, with at most 15 bytes to spare, and the rest is a free block; from there on it has a mapping of its own, of the least number of whole pages |
| `SegmentAllocator.Allocator.Free` | heap-allocator/README.md:179-229 | Takes the block back; every other block in use keeps place and contents, and the heap invariant holds again |
| `TieredHeap.Heap.MyMalloc` | heap-allocator/src/heap-allocator/heap-allocator.cpp:32-57 | A block that was not on loan, of the size class of the request, from the cache its size says; the heap invariant holds; none exactly when an mmap has failed. The whole new state is given (HeapCalls.Allocated): which list, which span and which block, what is fetched and how it is split, and a new thread cache if there was none |
| `TieredHeap.Heap.MyFree` | heap-allocator/src/heap-allocator/heap-allocator.cpp:63-79 | The block is found to be of its own span and is no longer on loan; the heap invariant holds. The whole new state is given (HeapCalls.Freed): the block at the front of its span, the span back on its list if it was exhausted, and, when its last block comes back, in front of the page list if that has fewer than 8 spans, or unmapped |
| `HeapState.LoansApart` | heap-allocator/src/heap-allocator/heap-allocator.cpp:32-79 | No two blocks on loan share a byte; each is at least as large as its request and lies inside the user area of one live span |
| `TieredHeap.Resolves` | heap-allocator/src/page-cache/page-cache.cpp:43-46 | The page id of every address in a live span yields that span |
| `HeapLocks.EveryRun` | heap-allocator/src/page-cache/page-cache.cpp:13-78 | The invariant holds after every run of any number of threads |
| `HeapGuards.StepsAreGuarded` | heap-allocator/src/page-cache/page-cache.cpp:13-78 | A list, or a span in a cache, changes only in a step of the thread that holds its lock or whose own it is, and spans are made and deleted only under latch_ |
| `HeapLookup.LookupsFindSpans` | heap-allocator/src/heap-allocator/heap-allocator.cpp:63-79 | However the threads interleave, also while pages of new spans are entered one by one: the page of every block on loan leads to its span, so MyFree, which looks it up without a lock, finds it |
| `HeapLocks.LoansNeverOverlap` | heap-allocator/src/heap-allocator/heap-allocator.cpp:32-79 | However the threads interleave, the blocks on loan are large enough, lie inside live spans and share no byte |
| `HeapLocks.StepDelivers` | heap-allocator/src/heap-allocator/heap-allocator.cpp:32-79 | Every step of a call leaves fewer steps to make; a block is lent exactly once, new and of its size class, by the step that has the span, taken back exactly once by the step that frees it, and no other step changes what is on loan |
| `HeapLocks.NoDeadlock` | heap-allocator/src/central-cache/central-cache.cpp:16-56 | While some thread is busy and mmap can deliver, some busy thread can go on and gets nearer to the end of its call: the chain of lock owners ends within three |
| `HeapLocks.AtRest` | heap-allocator/src/heap-allocator/heap-allocator.cpp:32-79 | When all threads are idle the heap is in a state between two calls of the sequential heap, and no lock is taken |
| `HeapSolo.SoloMalloc` | heap-allocator/src/heap-allocator/heap-allocator.cpp:32-57 | The steps of a thread that runs alone from MyMalloc on come to an end, and have done exactly what the sequential call does |
| `HeapSolo.SoloFree` | heap-allocator/src/heap-allocator/heap-allocator.cpp:63-79 | The same for MyFree |
| `JsonReader.OurReader.Parse` | linux-advanced-programing/final/others/json/jsoncpp.cpp:1248-1292 | For every text: returns true if and only if the document is in the language, then with its value, no error and an empty stack; returns false with one error or two and an empty stack |
| `JsonGrammar.RfcTextIsRead` | linux-advanced-programing/final/others/json/jsoncpp.cpp:1248-1292 | Every text of RFC 8259 sections 2 to 7 is answered as its tokens say, and refused only for what these name |
| `JsonGrammar.RfcStringDenotes` | linux-advanced-programing/final/others/json/jsoncpp.cpp:1918-2020 | A string of RFC 8259 section 7 whose escaped high surrogates have partners is read as what it denotes by the RFC: digits by their place, short escapes by the table, pairs by the formula, other characters as themselves |
| `JsonMeaning.LastFieldCounts` | linux-advanced-programing/final/others/json/jsoncpp.cpp:1684-1746 | An object has its keys in order, and under every name the value of the last member of that name |
| `JsonTexts.FastText` | linux-advanced-programing/final/others/json/jsoncpp.cpp:4455-4506 | The compact text written out: no white space, or one space behind each colon for yaml |
| `JsonTexts.StyledTextIs` | linux-advanced-programing/final/others/json/jsoncpp.cpp:4524-4670 | The styled text written out: each element or member on a line of its own, three spaces for every level, an array on one line exactly if it has fewer than 25 elements, none of them a nonempty container, and the line less than 74 characters, lengths being 32-bit |
| `JsonSpelled.AcceptedExactly` | linux-advanced-programing/final/others/json/jsoncpp.cpp:1248-1292 | A text is accepted if and only if it spells a document with a value, with comments where they may stand, behind it nothing but white space and allowed comments up to the end or a NUL (if extra text is refused), and no leaf at a strict root |
| `JsonSpelled.AcceptedDocument` | linux-advanced-programing/final/others/json/jsoncpp.cpp:1248-1292 | Every accepted text spells token by token a text of the grammar over the reader's own number and string tokens, up to trailing commas and tokens in place of a comma directly behind a comment, and has the value these tokens say; if extra text is refused, the whole text is spelled if and only if no NUL ends it, and in a text without a NUL these are all its tokens; without comment tokens, empty keys and trailing commas by the settings all separators are as in the grammar |
| `JsonGrammar.WritersPrintRfc` | linux-advanced-programing/final/others/json/jsoncpp.cpp:4447-4682 | Both writers print texts of RFC 8259, whatever the value |
| `JsonRoundTrip.FastRoundTrip` | linux-advanced-programing/final/others/json/jsoncpp.cpp:4447-4506 | For every value without doubles whose arrays have fewer than 2^31 elements, whatever bytes its strings and keys have: parsing what FastWriter prints gives what ReadBack says, by a value, a refusal or an exception; it is the value itself if and only if the value is faithful, within the stack limit, and no leaf under a strict root |
| `JsonRoundTrip.StyledRoundTrip` | linux-advanced-programing/final/others/json/jsoncpp.cpp:4513-4682 | The same for StyledWriter with keys cut at their first NUL: a value comes back if and only if, besides, no key has a NUL |
| `JsonString.QuoteRoundTrip` | linux-advanced-programing/final/others/json/jsoncpp.cpp:4349-4424 | Quoting and unescaping is the identity on every byte string with emitUTF8 on; with it off, if and only if the string is valid UTF-8 |
| `JsonValue.StrictTotalOrder` | linux-advanced-programing/final/others/json/jsoncpp.cpp:2908-3012 | operator< is a strict total order, compare() is -1 exactly when it holds and antisymmetric, and ties are exactly the equal values |
| `JsonValue.ContainersAscend` | linux-advanced-programing/final/others/json/jsoncpp.cpp:2952-2959 | A shorter container is less; of two of the same size that one is less whose element, or member by key and then value, is less at the first place where they differ |
| `JsonRanges.DocumentShown` | linux-advanced-programing/final/others/json/jsoncpp.cpp:1294-1384 | After a successful parse the range of every value in the tree holds its own text: brackets around arrays and objects, and the token that means the scalar |
| `JsonRanges.DocumentRanges` | linux-advanced-programing/final/others/json/jsoncpp.cpp:1294-1384 | After a successful parse the root range lies in the document and every part inside its whole |
| `SegmentAllocator.AllocateStep` | heap-allocator/README.md:138-177 | Handing out the front of a free block keeps the whole heap well formed, and the other blocks in use with their contents |
| `SegmentAllocator.MergeBounds` | heap-allocator/README.md:193-208 | What free merges is bounded by blocks in use on both sides, and contains no other block in use |
| `SegmentAllocator.FreeStepOccupied` | heap-allocator/README.md:224-229 | After a free every segment still has a block in use, unless the freed block was the last one of its segment |
| `SegmentAllocator.WholeSegment` | heap-allocator/README.md:226-227 | The test for unmapping succeeds exactly when the merged block is the whole segment |
| `SegmentAllocator.InsertStep` | heap-allocator/README.md:110-136 | Mapping and linking a segment keeps the heap well formed; its one free block is maximal |
| `SegmentAllocator.DropSegment` | heap-allocator/README.md:249-267 | Unlinking and unmapping a segment without a block in use keeps the heap well formed |
| `SegmentAllocator.FreshSegmentFits` | heap-allocator/README.md:104-107 | A new segment answers every request below the mmap threshold with its first block |
| `SegmentAllocator.LiveBlocksDisjoint` | heap-allocator/README.md:60-229 | Two blocks in use share no word; each lies inside one mapping, clear of the segment header |
| `SegmentAllocator.Allocator.Mmap` | heap-allocator/README.md:81-83 | The contract of mmap: it fails and changes nothing, or delivers some range apart from all mappings, aligned to pages and full of zeros; failures are counted |
| `SegmentAllocator.Allocator.MallocByMmap` | heap-allocator/README.md:77-93 | A large request gets a mapping of its own, with less than a page to spare, and leaves the segments alone; 0 exactly when the mmap has failed |
| `SegmentAllocator.Allocator.MallocBySegmentList` | heap-allocator/README.md:95-108 | First fit over segments in list order and blocks in address order, without mmap; a new segment only if no free block fits; the block is the front of what was free there, and the rest stays free; 0 exactly when the mmap has failed |
| `SegmentAllocator.Allocator.GetAndInsertSegment` | heap-allocator/README.md:110-136 | Adds one empty segment, whose one free block has 262142 words, in front of the list; -1 exactly when the mmap has failed, and then nothing has changed |
| `SegmentAllocator.Allocator.GetFreeMemBlockFromSegment` | heap-allocator/README.md:138-177 | Hands out the front of the first free block of the segment that is large enough, and leaves the rest as a free block if it has two words; 0 if there is none |
| `SegmentAllocator.Allocator.HandOut` | heap-allocator/README.md:151-173 | The block handed out is the front of the free block, at most one word longer than asked for, and the words behind it are a free block with header and footer; headers, footer and previous-in-use bits of the memory |
| `SegmentAllocator.Allocator.FreeInSegment` | heap-allocator/README.md:191-229 | Both neighbours are merged if they are free, and the segment is unmapped if and only if it is empty then |
| `SegmentAllocator.Allocator.IsTheLastBlockInSegment` | heap-allocator/README.md:231-247 | Says whether the block ends its segment, although only the list of all segments is looked at |
| `SegmentAllocator.Allocator.FreeSegment` | heap-allocator/README.md:249-267 | Removes the segment from the list and unmaps it |
| `SegmentAllocator.Allocator.Store` | heap-allocator/README.md:60-75 | A client may write any word of a block it holds; nothing else changes and the heap invariant holds |
| `BoundaryTag.BlockServesRequest` | heap-allocator/README.md:60-75 | The block size malloc computes has room for header and request if and only if the request is at most 2^64 - 16; it is a multiple of 8, and wastes less than 16 bytes unless it is the least block, of 16 bytes |
| `BoundaryTag.HugeRequestGetsSmallBlock` | heap-allocator/README.md:60-75 | The request 2^64 - 1 wraps and would be answered with a 16-byte block |
| `BoundaryTag.TakeWholeKeepsTiling` | heap-allocator/README.md:151-157 | Handing out a whole free block keeps its segment tiled: sizes add up, every previous-in-use bit and footer is right, no two free blocks touch |
| `BoundaryTag.CarveKeepsTiling` | heap-allocator/README.md:158-172 | Handing out the front of a free block and leaving the rest as a new free block keeps the segment tiled |
| `BoundaryTag.CoalesceKeepsTiling` | heap-allocator/README.md:193-223 | Replacing a maximal run of blocks by one free block keeps the segment tiled and leaves no two free blocks adjacent |
| `TieredHeap.CentralExhausted` | heap-allocator/src/central-cache/central-cache.cpp:23-26 | Between calls every span on a central list has its one block on loan |
| `TieredHeap.Heap.constructor` | heap-allocator/src/page-cache/page-cache.cpp:6-6 | The heap starts in a state that satisfies the invariant, with empty lists |
| `TieredHeap.Heap.Split` | heap-allocator/src/util/util.h:307-326 | Threads all blocks that fit onto the free list in address order; a split span is refused |
| `TieredHeap.Heap.Merge` | heap-allocator/src/util/util.h:332-341 | A span with all blocks free is unsplit again; any other stays |
| `TieredHeap.Heap.MallocSpan` | heap-allocator/src/page-cache/page-cache.cpp:35-49 | A new span of the page count, every page of it registered, all other registrations kept; none exactly when an mmap has failed or the page count has no list |
| `TieredHeap.Heap.DistributeSpan` | heap-allocator/src/page-cache/page-cache.cpp:13-28 | The front span of the page list if there is one, without mmap; otherwise a new, unsplit one on fresh pages, and none exactly when an mmap has failed; nothing else changes |
| `TieredHeap.Heap.TakeBackSpan` | heap-allocator/src/page-cache/page-cache.cpp:55-65 | Fewer than 8 spans on its list: it goes to the front of the list and no page is unmapped; otherwise the list stays and the span is gone with all of its pages |
| `TieredHeap.Heap.DeleteSpan` | heap-allocator/src/page-cache/page-cache.cpp:72-78 | The span is gone, the others stay registered; stale entries of the tree are never used |
| `TieredHeap.Heap.FetchSpanFromPageCache` | heap-allocator/src/thread-cache/thread-cache.cpp:18-23 | A span of the computed page count, split into all its blocks in address order, becomes the last of the slot list; nothing else changes; false exactly when an mmap has failed |
| `TieredHeap.Heap.ReleaseSpanToPageCache` | heap-allocator/src/thread-cache/thread-cache.cpp:29-35 | The span leaves the list, is merged, and goes to the page cache |
| `TieredHeap.Heap.DistributeMem` | heap-allocator/src/thread-cache/thread-cache.cpp:42-57 | The front block of the front span of the slot if it has one; otherwise the first block of a fetched span, and none exactly when an mmap has failed; an exhausted span leaves the list; the whole new state is given |
| `TieredHeap.Heap.TakeBackMem` | heap-allocator/src/thread-cache/thread-cache.cpp:65-75 | The block goes to the front of the free list; the span comes back on its list if it was exhausted, and is released if all its blocks are free |
| `TieredHeap.Heap.FindSpan` | heap-allocator/src/central-cache/central-cache.cpp:20-26 | The walk finds a span with a free block, or every span on the list is exhausted |
| `TieredHeap.Heap.DistributeMemBlock` | heap-allocator/src/central-cache/central-cache.cpp:16-39 | The first block of a span that has just been got and is the first of its list; the walk finds none between calls; none exactly when an mmap has failed; the whole new state is given |
| `TieredHeap.Heap.TakeBackMemBlock` | heap-allocator/src/central-cache/central-cache.cpp:46-56 | The span is retired at once |
| `TieredHeap.Heap.NewThreadCacheBySystem` | heap-allocator/src/heap-allocator/heap-allocator.cpp:17-25 | The thread gets 1040 empty lists; everything else stays; false exactly when the mmap has failed |
| `TieredHeap.Heap.Store` | heap-allocator/src/util/util.h:44-48 | Writing over the two words of a block on loan where its links would be changes nothing for the allocator |
| `HeapLocks.LockOrder` | heap-allocator/src/page-cache/page-cache.cpp:13-78 | A thread that waits for a lock holds only locks of lower rank: slot, then page list, then latch_ |
| `HeapLocks.StepKeeps` | heap-allocator/src/page-cache/page-cache.cpp:13-78 | Every step of every thread, on the heap that MyMalloc and MyFree work on, keeps the invariant |
| `HeapLocks.ReachableStates` | heap-allocator/src/page-cache/page-cache.cpp:13-78 | In every reachable state a page list holds at most 8 spans, all unsplit and of its page count; every span is in the hand of one thread and on no list, or in a cache and on the list of that cache, once, but for an exhausted span of a thread cache, which is on none |
| `HeapLocks.SlotExhausted` | heap-allocator/src/central-cache/central-cache.cpp:20-26 | Between any two steps no span on a central list has a free block, so the walk for one finds none |
| `HeapLookup.NobodyIsStuck` | heap-allocator/src/page-cache/page-cache.cpp:35-49 | With pages entered one by one under latch_, too, some busy thread can always go on |
| `HeapSteps.BlocksAreMaximal` | heap-allocator/src/util/util.h:307-326 | Split makes as many blocks as fit, each once |
| `HeapSteps.ThreadLendKeeps` | heap-allocator/src/thread-cache/thread-cache.cpp:50-56 | Lending the front block of a thread span keeps the invariant; the block was not on loan |
| `HeapSteps.ThreadReturnKeeps` | heap-allocator/src/thread-cache/thread-cache.cpp:65-75 | Taking a block back keeps the invariant; the span is listed exactly when it has a free block, and leaves when all are free |
| `HeapSteps.CentralLendKeeps` | heap-allocator/src/central-cache/central-cache.cpp:36-38 | Lending the one block of a central span keeps the invariant |
| `HeapSteps.CentralReturnKeeps` | heap-allocator/src/central-cache/central-cache.cpp:46-56 | A returned central block always makes its span free, and retiring the span keeps the invariant |
| `HeapSteps.DivideKeeps` | heap-allocator/src/util/util.h:307-326 | Splitting an unsplit span in hand keeps the invariant |
| `HeapSteps.ShelveKeeps` | heap-allocator/src/page-cache/page-cache.cpp:59-60 | Putting a span on a list keeps the invariant |
| `HeapSteps.UnshelveKeeps` | heap-allocator/src/page-cache/page-cache.cpp:24-24 | Taking a span off a page list keeps the invariant |
| `HeapSteps.FreshKeeps` | heap-allocator/src/page-cache/page-cache.cpp:40-41 | A new span is apart from all others |
| `HeapSteps.DropKeeps` | heap-allocator/src/page-cache/page-cache.cpp:72-78 | Unmapping a span in hand keeps the invariant |
| `HeapSteps.LoseKeeps` | heap-allocator/src/heap-allocator/heap-allocator.cpp:70-78 | A freed block of 524224 bytes is on no list and is never lent again; nothing else changes |
| `HeapSteps.NewThreadKeeps` | heap-allocator/src/heap-allocator/heap-allocator.cpp:17-25 | A new thread cache keeps the invariant |
| `HeapState.BlockInside` | heap-allocator/src/util/util.h:313-323 | Every block of a split span lies behind the 64-byte header and inside the span |
| `HeapState.FullList` | heap-allocator/src/util/util.h:298-298 | The count test of IsFree holds exactly if every block of the span is free |
| `HeapState.BlocksCounted` | heap-allocator/src/thread-cache/thread-cache.cpp:42-75 | The blocks of a span are exactly its free ones, those on loan and those lost, and only blocks of 524224 bytes are ever lost |
| `HeapState.SpanOnLoan` | heap-allocator/src/thread-cache/thread-cache.cpp:65-75 | Between calls a thread cache holds only spans it has a block of on loan |
| `HeapState.DrainedThread` | heap-allocator/src/thread-cache/thread-cache.cpp:65-75 | Once every block a thread took has been freed its cache holds no span and all its lists are empty |
| `RadixTree.KeysDiffer` | heap-allocator/src/util/util.h:238-248 | 36-bit page ids with the same three slots are the same |
| `RadixTree.GrowKeeps` | heap-allocator/src/util/util.h:203-206 | A new empty node changes no entry and loses no interior slot |
| `RadixTree.SetEntry` | heap-allocator/src/util/util.h:268-271 | Writing a leaf slot changes the entry of one 36-bit key and of no other |
| `RadixTree.Tree.Insert` | heap-allocator/src/util/util.h:256-272 | Insert refines a map update on 36-bit keys, and both interior slots of the key are there afterwards; false exactly when an mmap has failed |
| `RadixTree.Tree.GetValue` | heap-allocator/src/util/util.h:238-248 | GetValue refines map lookup for every key whose interior slots are there |
| `RadixTree.Tree.NewSlot` | heap-allocator/src/util/util.h:203-206 | A null slot gets a node on fresh memory, whose zeros are empty slots; false exactly when the mmap has failed |
| `ChunkList.SpliceLists` | heap-allocator/src/util/util.h:62-88 | Splicing a chain into the circle of a list leaves all other lists in the same memory as they were |
| `ChunkList.UnlinkLists` | heap-allocator/src/util/util.h:102-107 | Unlinking an element leaves all other lists in the same memory as they were |
| `ChunkList.ListTable.Insert` | heap-allocator/src/util/util.h:62-71 | insert is insertion into the sequence |
| `ChunkList.ListTable.MultiInsert` | heap-allocator/src/util/util.h:80-88 | multiInsert is splicing a sequence |
| `ChunkList.ListTable.Remove` | heap-allocator/src/util/util.h:102-107 | Remove is removal from the sequence |
| `ChunkList.ListTable.PushFront` | heap-allocator/src/util/util.h:113-113 | Push at the front of the sequence |
| `ChunkList.ListTable.PushBack` | heap-allocator/src/util/util.h:119-119 | Push at the back of the sequence |
| `ChunkList.ListTable.MultiPushFront` | heap-allocator/src/util/util.h:127-127 | A chain goes in front of the sequence |
| `ChunkList.ListTable.RemoveFrontChunk` | heap-allocator/src/util/util.h:141-141 | Removes the first element |
| `ChunkList.ListTable.GetFrontChunk` | heap-allocator/src/util/util.h:147-147 | The first element, or the head of an empty list |
| `ChunkList.ListTable.RemoveBackChunk` | heap-allocator/src/util/util.h:153-153 | Removes the last element |
| `ChunkList.ListTable.Reset` | heap-allocator/src/util/util.h:161-165 | The list is empty; the links of its former chunks are left as they are |
| `ChunkList.ListTable.Size` | heap-allocator/src/util/util.h:166-166 | chunk_num_ is the length of the sequence |
| `SystemPages.System.SysMallocPage` | heap-allocator/src/util/util.cpp:31-40 | The contract of mmap: some unmapped pages of the 48-bit address space, full of zeros, or a failure, which is counted and changes nothing |
| `SystemPages.System.SysFreePage` | heap-allocator/src/util/util.cpp:50-50 | The contract of munmap: these pages and no others are unmapped |
| `SystemPages.MappingsApart` | heap-allocator/src/util/util.cpp:31-40 | Two mappings share no byte |
| `HeapSizes.CeilIsLeastClass` | heap-allocator/src/util/util.cpp:66-80 | CeilMemSize is the least size class that is not below the request |
| `HeapSizes.CeilIsClosure` | heap-allocator/src/util/util.cpp:66-80 | CeilMemSize is idempotent and monotone |
| `HeapSizes.SlotsAreOrdered` | heap-allocator/src/util/util.cpp:87-95 | Size2Slot is an order isomorphism from the size classes to the slots from 4 on |
| `HeapSizes.TiersAgree` | heap-allocator/src/heap-allocator/heap-allocator.cpp:43-50 | A request below the system tier, to which negative ones go, is served without tripping the assertion and its block taken back by the same cache if and only if it does not align to 65536 or 524224; the requests that do are given |
| `HeapSizes.ThreadSpans` | heap-allocator/src/thread-cache/thread-cache.cpp:47-49 | For every thread-tier size class a fetch asks for 1 to 128 pages and gets at least 2 blocks; the slot is in the table |
| `HeapSizes.CentralSpans` | heap-allocator/src/central-cache/central-cache.cpp:29-34 | For every central size class a span of 1 to 128 pages holds exactly one block, and one page less would not hold it; the slot is in the table |
| `HeapSizes.CeilQuotient` | heap-allocator/src/central-cache/central-cache.cpp:30-30 | ceilf of the quotient is the page count rounded up |
| `HeapSizes.FetchFallsShort` | heap-allocator/src/thread-cache/thread-cache.cpp:13-18 | For every size the fetched span holds fewer than the min_num blocks wanted, by less than one block and 4149 bytes |
| `HeapSizes.FetchedSpan` | heap-allocator/src/thread-cache/thread-cache.cpp:18-47 | For every thread-tier size class the span fetched is as long as the blocks that 128 pages can hold, up to the rounding: more than 128 pages less one block and one page, and at most 128 pages |
| `HeapSizes.CeilIsRounded` | heap-allocator/src/util/util.cpp:66-80 | 16 bytes at least, then the next multiple of 4 up to 64, then the next multiple of 64 |
| `JsonReader.OurReader.SkipSpaces` | linux-advanced-programing/final/others/json/jsoncpp.cpp:1507-1515 | Skips exactly the white space at the cursor |
| `JsonReader.OurReader.Match` | linux-advanced-programing/final/others/json/jsoncpp.cpp:1527-1536 | Advances over the pattern if it is there, and stays otherwise |
| `JsonReader.OurReader.ReadCStyleComment` | linux-advanced-programing/final/others/json/jsoncpp.cpp:1604-1616 | Reads through the first star and slash, or to the end of the text, where it fails unless the last character is a slash |
| `JsonReader.OurReader.ReadCppStyleComment` | linux-advanced-programing/final/others/json/jsoncpp.cpp:1618-1632 | Reads through the end of the line in each of its three forms |
| `JsonReader.OurReader.ReadNumber` | linux-advanced-programing/final/others/json/jsoncpp.cpp:1634-1659 | Reads the longest number at the cursor |
| `JsonReader.OurReader.ReadString` | linux-advanced-programing/final/others/json/jsoncpp.cpp:1660-1670 | Finds the closing quote, skipping escaped characters, or fails at the end of the text |
| `JsonReader.OurReader.ReadToken` | linux-advanced-programing/final/others/json/jsoncpp.cpp:1396-1505 | The token at the cursor with its range; fails exactly on an error token |
| `JsonReader.OurReader.SkipCommentTokens` | linux-advanced-programing/final/others/json/jsoncpp.cpp:1386-1394 | The first token of a value, after the comments if they are allowed |
| `JsonReader.OurReader.RecoverFromError` | linux-advanced-programing/final/others/json/jsoncpp.cpp:2031-2042 | Skips through the first token of the kind, dropping the errors met on the way |
| `JsonReader.OurReader.AddError` | linux-advanced-programing/final/others/json/jsoncpp.cpp:2022-2029 | Appends exactly this error |
| `JsonReader.OurReader.AddErrorAndRecover` | linux-advanced-programing/final/others/json/jsoncpp.cpp:2044-2048 | Appends exactly this error and skips to where the enclosing rule can go on |
| `JsonReader.OurReader.DecodeUnicodeEscapeSequence` | linux-advanced-programing/final/others/json/jsoncpp.cpp:1996-2020 | The number of four hexadecimal digits in either case, or one error about the token |
| `JsonReader.OurReader.DecodeUnicodeCodePoint` | linux-advanced-programing/final/others/json/jsoncpp.cpp:1971-1994 | One escape or a surrogate pair as one code point, or one error about the token |
| `JsonReader.OurReader.DecodeString` | linux-advanced-programing/final/others/json/jsoncpp.cpp:1907-1969 | The string a token denotes, or one error about the token |
| `JsonReader.OurReader.DecodeNumberToken` | linux-advanced-programing/final/others/json/jsoncpp.cpp:1790-1905 | The payload of a number token, or one error that it is not a number |
| `JsonReader.OurReader.ReadValue` | linux-advanced-programing/final/others/json/jsoncpp.cpp:1294-1384 | Succeeds exactly if the grammar does, with that value, range and cursor; the values below on the node stack stay; a failure has recorded one error, about something behind the start, and for an array or object the cursor is where recovery for its bracket ends |
| `JsonReader.OurReader.ReadArray` | linux-advanced-programing/final/others/json/jsoncpp.cpp:1748-1788 | The same for an array behind its bracket; after a failure the cursor is behind the first closing bracket after the error, or at the end |
| `JsonReader.OurReader.ReadObject` | linux-advanced-programing/final/others/json/jsoncpp.cpp:1684-1746 | The same for an object behind its brace, with members in key order and a repeated key replaced |
| `JsonReader.OurReader.ReadItemEnd` | linux-advanced-programing/final/others/json/jsoncpp.cpp:1772-1786 | A comma or a closing bracket behind an element; otherwise one error about the token there, and recovery behind it |
| `JsonReader.OurReader.ReadMemberEnd` | linux-advanced-programing/final/others/json/jsoncpp.cpp:1731-1742 | A comma, a closing brace or a comment behind a member; otherwise one error about the token there, and recovery behind it |
| `JsonReader.OurReader.CheckDocument` | linux-advanced-programing/final/others/json/jsoncpp.cpp:1266-1291 | What the settings demand of the rest of the text and of the root, with the error recorded if it is not so |
| `JsonGrammar.RfcNumberIsWord` | linux-advanced-programing/final/others/json/jsoncpp.cpp:1634-1659 | Every number of RFC 8259 section 6 is one number token |
| `JsonGrammar.RfcStringIsKey` | linux-advanced-programing/final/others/json/jsoncpp.cpp:1660-1670 | Every string of RFC 8259 section 7 is one string token |
| `JsonGrammar.RfcStringReads` | linux-advanced-programing/final/others/json/jsoncpp.cpp:1918-1994 | A string of RFC 8259 section 7 is refused if and only if an escaped high surrogate is not followed by another escape of four digits |
| `JsonGrammar.StringTokens` | linux-advanced-programing/final/others/json/jsoncpp.cpp:1660-1670 | A string token that denotes a string and has no control character is a string of RFC 8259 section 7 |
| `JsonGrammar.HexValueIs` | linux-advanced-programing/final/others/json/jsoncpp.cpp:2005-2014 | The value of a hexadecimal digit is its place in 0123456789abcdef or 0123456789ABCDEF; nothing else is one |
| `JsonGrammar.SimpleEscapeIs` | linux-advanced-programing/final/others/json/jsoncpp.cpp:1929-1954 | The eight short escapes of RFC 8259 section 7 and what they stand for; there are no others |
| `JsonMeaning.LiteralsRead` | linux-advanced-programing/final/others/json/jsoncpp.cpp:1321-1339 | true, false and null |
| `JsonMeaning.StringReads` | linux-advanced-programing/final/others/json/jsoncpp.cpp:1907-1969 | A string token of the grammar means what it denotes, and is refused exactly for an escaped high surrogate without a partner |
| `JsonMeaning.IntegerReads` | linux-advanced-programing/final/others/json/jsoncpp.cpp:1800-1878 | A number of the grammar without fraction and exponent means its decimal value, signed below 2^63 and unsigned from there to 2^64 |
| `JsonMeaning.ElementsInOrder` | linux-advanced-programing/final/others/json/jsoncpp.cpp:1748-1788 | The elements of an array are the values of the texts between its commas, in order |
| `JsonMeaning.KeysOfRead` | linux-advanced-programing/final/others/json/jsoncpp.cpp:1700-1717 | Keys of an object that is read are strings below 2^30 bytes; with rejectDupKeys no two of them are the same |
| `JsonMeaning.NestingLimit` | linux-advanced-programing/final/others/json/jsoncpp.cpp:1294-1297 | A layout nested deeper than the stack limit is never accepted; one that is not, with short keys, is never answered by an exception |
| `JsonSpelled.SpelledDocument` | linux-advanced-programing/final/others/json/jsoncpp.cpp:1248-1292 | The converse: every text that spells such a document is answered as its tokens say |
| `JsonSpelled.BlankIs` | linux-advanced-programing/final/others/json/jsoncpp.cpp:1274-1279 | The reader finds the end of the text behind a value if and only if there is only white space, and comments if allowed, up to the end or a NUL |
| `JsonDocuments.DocumentIsRead` | linux-advanced-programing/final/others/json/jsoncpp.cpp:1248-1292 | A layout with white space around it is one document, answered as its tokens say; under a strict root a leaf is refused |
| `JsonDocuments.NulEndsDocument` | linux-advanced-programing/final/others/json/jsoncpp.cpp:1488-1490 | Whatever stands behind a NUL that follows a document is not looked at, even if extra text is refused |
| `JsonLayout.LayIsRead` | linux-advanced-programing/final/others/json/jsoncpp.cpp:1294-1384 | A value laid out with any white space, in any key order and with any repetitions, is answered as its tokens say, whatever follows: a value, a refusal or, above the stack limit, an exception |
| `JsonLexemes.LexLay` | linux-advanced-programing/final/others/json/jsoncpp.cpp:1396-1505 | A layout is scanned into the lexemes of the value it shows, whatever its white space |
| `JsonRoundTrip.StyledLayShows` | linux-advanced-programing/final/others/json/jsoncpp.cpp:4524-4625 | The styled layout is a layout, and its tokens are those of the value with its keys cut at their first NUL |
| `JsonRoundTrip.ReadBackUnchanged` | linux-advanced-programing/final/others/json/jsoncpp.cpp:4447-4506 | What is read back equals what was written if and only if all strings and keys are UTF-8, keys are below 2^30 bytes, no unsigned integer fits 63 bits, and the stack limit is not exceeded |
| `JsonRoundTrip.SameLexemes` | linux-advanced-programing/final/others/json/jsoncpp.cpp:4513-4682 | StyledWriter prints the same lexemes as FastWriter if no key contains a NUL, and for UTF-8 keys only if so |
| `JsonRoundTrip.CutUnseen` | linux-advanced-programing/final/others/json/jsoncpp.cpp:4567-4567 | A key that is not UTF-8 can lose NULs and be quoted the same: why the converse needs UTF-8 keys |
| `JsonRoundTrip.CutUnchanged` | linux-advanced-programing/final/others/json/jsoncpp.cpp:4567-4567 | With its keys cut a value is read back unchanged if and only if it would be otherwise and no key has a NUL |
| `JsonFastWriter.FastWriter.Write` | linux-advanced-programing/final/others/json/jsoncpp.cpp:4447-4453 | The document is the compact layout of the value and a line feed unless that is omitted |
| `JsonFastWriter.FastWriter.WriteValue` | linux-advanced-programing/final/others/json/jsoncpp.cpp:4455-4506 | Appends exactly the compact layout of the value |
| `JsonFastWriter.FastLayShows` | linux-advanced-programing/final/others/json/jsoncpp.cpp:4455-4506 | The compact layout is a layout, and its tokens are those of the value |
| `JsonStyledWriter.StyledWriter.Write` | linux-advanced-programing/final/others/json/jsoncpp.cpp:4513-4522 | The document is the styled layout and a line feed, from any earlier state of the writer; the indentation is empty again |
| `JsonStyledWriter.StyledWriter.WriteValue` | linux-advanced-programing/final/others/json/jsoncpp.cpp:4524-4582 | Appends exactly the styled layout at the current indentation, or collects one text per simple value while an array is measured |
| `JsonStyledWriter.StyledWriter.WriteArrayValue` | linux-advanced-programing/final/others/json/jsoncpp.cpp:4584-4625 | Appends exactly the styled layout of the array, on one line or many |
| `JsonStyledWriter.StyledWriter.IsMultilineArray` | linux-advanced-programing/final/others/json/jsoncpp.cpp:4627-4652 | Decides by length, nesting and width in 32 bits; childValues_ is left empty or with the text of every element, and always so if one line is chosen |
| `JsonStyledWriter.StyledWriter.WriteLine` | linux-advanced-programing/final/others/json/jsoncpp.cpp:4613-4624 | Prints one line from exactly one collected text per element |
| `JsonStyledWriter.StyledWriter.WriteIndent` | linux-advanced-programing/final/others/json/jsoncpp.cpp:4661-4670 | A new line unless the text is empty, already indented, or at a line start |
| `JsonStyledWriter.LineFits` | linux-advanced-programing/final/others/json/jsoncpp.cpp:4637-4650 | The look-ahead measures exactly the line that would be printed; unless lengths reach 2^32 an array of simple elements is broken up if and only if it has 25 elements or the line 74 characters |
| `JsonTexts.BrokenIs` | linux-advanced-programing/final/others/json/jsoncpp.cpp:4627-4652 | The decision by measured widths is the decision by the text that would be printed |
| `JsonTexts.QuotedFront` | linux-advanced-programing/final/others/json/jsoncpp.cpp:4349-4424 | A quoted string written out, character by character: seven two-letter escapes, lower-case \u escapes for other control characters and for characters outside ASCII, as pairs above U+FFFF |
| `JsonRanges.SiblingsApart` | linux-advanced-programing/final/others/json/jsoncpp.cpp:1748-1788 | Elements of an array follow each other in the text; members of an object do not overlap; both lie inside their parent |
| `JsonValue.BytesTrichotomy` | linux-advanced-programing/final/others/json/jsoncpp.cpp:2721-2750 | Of two keys exactly one is less, or they are the same bytes |
| `JsonValue.Trichotomy` | linux-advanced-programing/final/others/json/jsoncpp.cpp:2908-3012 | Exactly one of a < b, a == b and b < a holds for all nested values |
| `JsonValue.Transitive` | linux-advanced-programing/final/others/json/jsoncpp.cpp:2916-2964 | operator< is transitive on all nested values |
| `JsonValue.EqualCongruence` | linux-advanced-programing/final/others/json/jsoncpp.cpp:2908-3012 | Equal values compare alike with every value |
| `JsonValue.EqualIsSamePlain` | linux-advanced-programing/final/others/json/jsoncpp.cpp:2972-3012 | operator== holds exactly if the values are the same but for their source ranges |
| `JsonValue.KindsAscend` | linux-advanced-programing/final/others/json/jsoncpp.cpp:2916-2919 | Values of different kinds are in the order null, signed integer, unsigned integer, double, string, boolean, array, object |
| `JsonValue.LeavesAscend` | linux-advanced-programing/final/others/json/jsoncpp.cpp:2920-2951 | Numbers of one kind are in the order of the numbers, false is before true, and strings are in the order of their first different byte or of their lengths |
| `JsonString.ValueToQuotedStringN` | linux-advanced-programing/final/others/json/jsoncpp.cpp:4349-4424 | The writing loop produces the quoted form of the whole byte string |
| `JsonString.PlainBody` | linux-advanced-programing/final/others/json/jsoncpp.cpp:4254-4260 | A string that needs no escaping is written unchanged |
| `JsonString.SurrogatePairDecodes` | linux-advanced-programing/final/others/json/jsoncpp.cpp:4412-4417 | A code point above 0xFFFF is written as a surrogate pair that reads back as that code point (RFC 8259 section 7) |
| `JsonString.QuotedDecodes` | linux-advanced-programing/final/others/json/jsoncpp.cpp:1918-1969 | Unescaping a quoted byte string gives its meaning: ill-formed UTF-8 becomes replacement characters |
| `JsonString.MeaningIsValid` | linux-advanced-programing/final/others/json/jsoncpp.cpp:4262-4311 | Whatever byte string was quoted without emitUTF8, well-formed UTF-8 is read back |
| `JsonString.QuotedScans` | linux-advanced-programing/final/others/json/jsoncpp.cpp:1660-1670 | The scanner ends a quoted string exactly at its closing quote |
| `JsonText.CodepointOfChar` | linux-advanced-programing/final/others/json/jsoncpp.cpp:4262-4311 | On a well-formed UTF-8 character (RFC 3629 section 4) utf8ToCodepoint reads the scalar value that its bytes carry in base 64, and the character is the encoding of that value |
| `JsonText.CharOfCodepoint` | linux-advanced-programing/final/others/json/jsoncpp.cpp:125-151 | codePointToUTF8 writes one well-formed character for every scalar value |
| `JsonNumber.UintToString` | linux-advanced-programing/final/others/json/jsoncpp.cpp:162-173 | Writes the decimal digits and a NUL backwards, and touches no other byte of the buffer |
| `JsonNumber.DigitsOfUInt` | linux-advanced-programing/final/others/json/jsoncpp.cpp:153-173 | A 64-bit number has at most 20 digits, so the 25-byte buffer never underruns |
| `JsonNumber.IntToString` | linux-advanced-programing/final/others/json/jsoncpp.cpp:4168-4182 | The decimal text of every 64-bit signed integer, the least one included |
| `JsonNumber.UintToText` | linux-advanced-programing/final/others/json/jsoncpp.cpp:4184-4190 | The decimal text of every 64-bit unsigned integer |
| `JsonNumber.DecodeNumber` | linux-advanced-programing/final/others/json/jsoncpp.cpp:1800-1878 | Reads the exact integer of an optional minus and digits precisely when it lies in [-2^63, 2^64 - 1], leaves all other texts to the double reader, and stays inside 64 bits on the way |
| `JsonNumber.DecimalRoundTrip` | linux-advanced-programing/final/others/json/jsoncpp.cpp:4168-4190 | Every 64-bit integer is read back from its text; an unsigned one up to 2^63 - 1 comes back signed |
| `JsonNumber.IntegersRead` | linux-advanced-programing/final/others/json/jsoncpp.cpp:1800-1878 | A text that is read as an integer is an integer of RFC 8259 section 6 if and only if it is not a lone minus sign and has no zero in front of other digits |
| `JsonNumber.RfcIntegersAreRead` | linux-advanced-programing/final/others/json/jsoncpp.cpp:1800-1878 | Every integer of RFC 8259 section 6 in [-2^63, 2^64 - 1] is read as itself, and no other one as an integer |
| `JsonNumber.LoneMinusAndLeadingZero` | linux-advanced-programing/final/others/json/jsoncpp.cpp:1800-1878 | "-" is read as 0 and "01" as 1, which RFC 8259 section 6 does not allow |
| `JsonLexer.CommentCloses` | linux-advanced-programing/final/others/json/jsoncpp.cpp:1604-1616 | A C comment is accepted if and only if it is closed or the last character of the text is a slash; it ends behind the closing characters if there are any |
| `JsonLexer.RecoverEndIs` | linux-advanced-programing/final/others/json/jsoncpp.cpp:2031-2042 | Recovery stops behind a bracket of its kind, behind a NUL or at the end of the text |
| `JsonLexer.LineCommentEnds` | linux-advanced-programing/final/others/json/jsoncpp.cpp:1618-1632 | A C++ comment ends behind the first line feed, carriage return or pair of the two, or with the text |
| `JsonLexer.NumberHasParts` | linux-advanced-programing/final/others/json/jsoncpp.cpp:1634-1659 | What is read as a number is digits, perhaps a point and digits, perhaps an exponent with or without a sign |
| `JsonLexer.NumberIsLongest` | linux-advanced-programing/final/others/json/jsoncpp.cpp:1634-1659 | ... and no longer start of the text is |
| `JsonParser.SetMemberTwice` | linux-advanced-programing/final/others/json/jsoncpp.cpp:3483-3499 | members[key] assigned twice is assigned once: the reference is to the same place |

## Left out

- The system tier of the tiered allocator: requests from 524224 bytes on, and negative ones, get a mapping of their own, and
  freeing one depends on absent or stale entries of the tree.
- TieredHeap.Heap.MyMalloc: requests that align to 65536 are excluded, because the code then either trips its assertion or
  returns the block to another cache than it came from; TiersAgree gives the exact requests.
- TieredHeap.Heap.MallocSpan: the argument 129, which the code's range check lets through to a list that does not exist, is
  excluded; ThreadSpans and CentralSpans show that no caller passes it.
- TieredHeap.Heap.DistributeSpan: the argument 129 is excluded for the same reason.
- SegmentAllocator.Allocator.Malloc: requests above 2^64 - 16 are excluded; BlockServesRequest shows that this is exactly
  where the block has no room for the request.
- TieredHeap.Heap.Store: only the two words of a block where links would be are modelled; the contents of whole blocks on
  loan are modelled in the boundary-tag allocator.
- TieredHeap.Heap.MyMalloc: also, after a failed `mmap`, which the source does not check for, nothing is said about the heap.
- TieredHeap.Heap.NewThreadCacheBySystem: the size of a list object is taken to be 112 bytes, as on 64-bit Linux; only the
  number of mapped pages depends on it.
- The destructor of the radix tree, page_id_, which nothing reads, and MultiPushBack, which does not compile if used.
- Memory order and the C++ mutex itself; a lock is taken and released in one step. In HeapLocks the search of a central
  list is one step that finds nothing, which HeapLocks.SlotExhausted proves, and mmap does not fail. In HeapLookup the radix
  tree is a map from pages, which RadixTree.Tree.Insert and GetValue refine.
- Doubles in JSON: reading is a parameter of the reader (`toDouble`), and the writers are proved for values without
  doubles. NaN and infinities are left out with them.
- Comments in values, dropped null placeholders, numeric keys, single-quoted strings and the special-float names of the
  reader, all off by default; comments in a text are skipped but not collected.
- JsonReader.OurReader.AddError: the extra location of an error and the formatting of the error list. Which error of a nested
  value is recorded is said by its range; the rules that find it say the message.
- JsonReader.OurReader.ReadArray: the source counts elements in an int, which overflows, undefined, at 2^31 of them; the
  model counts on.
- JsonRoundTrip.FastRoundTrip: arrays of 2^31 elements and more are excluded for that reason.
- JsonRoundTrip.StyledRoundTrip: the same.
- Arrays are dense sequences; the source keeps them in a map from indices, which could be sparse.
- The node stack of the reader holds values that are written back to their parents, where the source holds pointers to
  them; aliasing between the two is not modelled.
- The older Reader, StyledStreamWriter, BuiltStyledStreamWriter, streams, Path and builder settings: near copies of what is
  modelled, or only bulk.
- geekGFS, the serializers, the operating-system exercises, the TCP samples, the plugin loaders and the food server's
  threads: input and output, or small members that the two cores subsume.

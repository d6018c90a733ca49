# CompoundFs, verified

CompoundFs keeps a whole file system, with transactions, in one file of the operating system. This project models
the parts of it on which everything else rests, and proves what they promise. `dafny verify dfyconfig.toml` checks it.

Code that changes state is a class whose methods have the loops and branches of the original. Each method is proved
against functions on values, and the promises are lemmas about these functions, or invariants that every method keeps.

## Storage and commit

Files: `Disk`, `Recovery`, `CacheManager`, `CommitProtocol`, `CommitHandler`, `RollbackHandler`, `CacheRuns`; for the
bytes of a log page `LogPage`; `Basics` holds definitions that several parts share.

The file is a sequence of pages, with what the last flush made permanent and all writes since. A page write is atomic;
a crash leaves each page with its flushed contents or with any contents written since; growing and cutting take
effect in order. Checksums and the log signature are constructors of the page type: no page but a log page passes as
one. A write operation is a `Snapshot`: the file, the cache, the redirections of evicted pages, the ids of new pages.

- Over any run of operations, commits and rollbacks, and whatever is evicted, loading a page gives the last contents
  written to it, wherever they are by then, or after a rollback the committed ones; a rollback costs exactly the
  committed pages that were taken over as new: `CacheRuns.Run`.
- A crash at any step of a commit, losing any part of what was not flushed, leads back to the file before it; after
  the last step the file is what the transaction saw. `CommitHandler.Commit` does exactly these steps.
- Recovery may itself be interrupted any number of times. Readers, who only redirect, see the same as writers.
- Trimming the cache leaves as many pages as allowed and picks the right ones: `Trim`.

## The tree

Files: `ByteStrings`, `Nodes`, `Trees`, `TreeInsert`, `TreeSteps`, `TreeGrowth`, `TreeRemove`, `TreeUnderflow`,
`TreeLinks`, `KeyLengths`, `TreeRemoval`, `TreeCursors`, `BTree`, `TreeRuns`, `StuckTrees`; for the bytes of a page
`Slots`, `LeafPage`, `Words`, `InnerPage`.

The class `BTree` works on a map of pages, with the stack of inner pages and the loops of the original. A ghost tree,
and a ghost tree with an open place while work is in progress, say what the pages mean. Keys are ordered by a real
number each, which turns bounds of subtrees into intervals. `Leaf` and `InnerNode` are the 4096 bytes themselves, with
a table of slots growing towards the data; each of their methods is proved to compute the function on sequences of
entries, or of keys and children, that `BTree` uses.

- Insertion and removal refine the map operations, through every cascade of splits, merges, redistributions and the
  collapse of the root; leaves stay at one depth, separators bound their subtrees, no page is lost or used twice. Of
  the leaves only those are written that have to be, and their links lead where they should or, after a split, exactly
  one does not: `Insert`, `Remove`, `SplitKeepsBack`.
- Removal runs out of room exactly when the pages on the path say so beforehand, and never with keys of one length.
- A walk from the beginning visits every entry once, in order, as long as the chain of leaves is right. A cursor begun
  at a key stands on the first entry not below it, unless the leaf searched ends before.

## Files and free space

Files: `Intervals`, `FileTable`, `FileTablePage`, `FileStore`, `FileWriter`, `FileReader`, `FileSessions`,
`FilesTogether`, `PageBags`, `FreeTables`, `FreeStore`, `FreeStoreRuns`.

Any sequence of writes, with closing, appending and early flushes of the page list between, is read back by any
sequence of reads. So is what goes to any number of files, one after the other or all open at once (`WriteFiles`,
`WriteTogether`). The free store gives out the beginning of what it lists and takes back pages; after it is closed the
list holds every page it answers for exactly once, its own tables included. Allocating until nothing is left hands out
every free page once.

## Streams

Files: `CompressedInteger`, `FixupTable`, `StreamRule`, `SchemaEvolution`, `StreamCuts`, `Stream`.

A `Schema` describes any nesting of the types that can be streamed. `Migrate` says what a reader with another version
of the types should get, member by member and without looking at bytes; `ReadsBack` proves that it gets just that.
`CutNoticed` has the values that can be cut off without an error.

## Locks

Files: `SharedLock`, `Lock`, `LockProtocol`.

Two machines of interleaved steps: threads inside one lock made of a mutex and a condition variable, and processes
that take the gate, the shared lock and the writer lock in the order of the protocol. Both do what the phases of the
others allow, no more and no less: any number of readers and a writer are in at the same time (`AllAtOnce`).

## Records in a temporary file

File: `TempFileBuffer`.

## What turned out differently

The model follows the code. Where the code does not do what one would expect, a lemma gives the input and another the
exact condition.

- A commit without dirty pages writes its new pages and never flushes: `UnflushedCommit`, `UnflushedCommitLoses`. With
  nothing left to flush from before, it survives a crash exactly when each of these pages is in the file already as it
  is in memory: `SettledCommit`.
- The README of the repository lists writing new pages as the first step of a commit; the code does it after updating
  the dirty pages. Both are flushed before the file is cut, so the result is the same.
- The test before two inner pages are merged forgets one byte, and sharing keys may lengthen a separator in a page
  without room: `CanMergeFits`. `MergeMayNotFit` and `ShareMayNotFit` are legal trees with a key that cannot be removed;
  `RoomIs` and `Remove` have the exact condition. With keys of one length neither happens: `RoomOfOneLength`.
- A leaf split does not tell the next leaf about its new left neighbour: links to the left stay right exactly when the
  last leaf splits (`SplitKeepsBack`, `Insert`), as in an ascending run (`PutAscending`). Removing the next leaf later
  breaks the chain: `UnlinkAfterSplit`; `UnlinkKeepsChain` and `Remove` have the exact condition. If the left neighbour was freed before,
  its page is written although it is free: `UnlinkWritesFreed`; `UnlinkOutside` is the exact condition.
- Removing the last entry lists the root page as free although it stays the root: `Remove`.
- A cursor begun at a key can be empty although the next leaf has an answer: `BeginMayMiss`. That happens exactly when
  all entries of the leaf in whose range the key falls are below it: `Begin`.
- The size the free store keeps still counts pages that became tables when it was closed, so it can run out of pages
  with a size left: `CloseEvens`, `RunOut`. The result is `Exhausted`, where the original fails an assertion;
  `Allocate` and `AllocateAll` have the exact condition.
- Opening a file reader again does not clear its list of pages: before the end of a file it reads what was left of that
  one first. `Open` has the exact condition; nothing in the repository opens a reader twice.
- A record can be read into a longer one, a fixed-size array only if its elements can be skipped, as pairs can:
  `ArrayLengths`, `SkipEmpty`.
- A value that ends with a pair can be cut off where nobody notices: `CutPasses`; `CutNoticed` is the exact condition.
- The signature of a log page does not tell page 0 from page 1, nor indices apart by a multiple of 2147483647:
  `SignatureTells`.
- Reading the temporary file a second time goes on at the position in the buffer where reading stopped, which is the
  beginning only if it is zero: `Rewind`. It may find nothing (`ReadTwice`), or records that nobody wrote
  (`ReadMidway`).

## Model

| member | source | states |
|---|---|---|
| Disk.PageFile.WritePage | CompoundFs/FileInterface.h:25-43 | Writing a page changes this page only; until the next flush a crash may undo it. |
| Disk.PageFile.NewInterval | CompoundFs/FileInterface.h:25-43 | Growing the file appends blank pages and yields the index of the first. |
| Disk.PageFile.FlushFile | CompoundFs/FileInterface.h:25-43 | After a flush a crash leaves the file as it is. |
| Disk.PageFile.Truncate | CompoundFs/FileInterface.h:25-43 | Cutting the file keeps the pages below the new size and nothing else. |
| Recovery.SameLogs | CompoundFs/RollbackHandler.cpp:42-67 | Scanning for the log looks at the log pages at the end of the file and at nothing else. |
| Recovery.RevertOpsAre | CompoundFs/RollbackHandler.cpp:13-19 | When copies and originals do not overlap, reverting succeeds for every entry and writes what the copy held at the beginning. |
| Recovery.RevertedAre | CompoundFs/RollbackHandler.cpp:13-19 | After reverting, a logged page holds its copy, for the entry that counts when a page is logged more than once, and every other page is untouched. |
| Recovery.RedirectAgrees | CompoundFs/RollbackHandler.cpp:35-40 | The redirections of the read-only open lead each page to the contents that reverting would have put there. |
| Recovery.VirtualRevertAgrees | CompoundFs/RollbackHandler.cpp:35-67 | For every page, reading through the redirections gives what the file holds after the physical revert, whatever the number of log pages. |
| Recovery.RecoverRestores | CompoundFs/RollbackHandler.cpp:13-33 | Recovery that runs to its end restores the committed size and every committed page outside the given exceptions. |
| Recovery.RecoverCrash | CompoundFs/RollbackHandler.cpp:13-33 | A crash at any step of recovery, losing any of its unflushed writes, leaves a file from which the committed one can still be recovered. |
| Recovery.RecoverEventually | README.md:103-137 | However often recovery is interrupted, the attempt that finally runs through restores the committed file. |
| CacheManagement.TakenKeeps | CompoundFs/CacheManager.cpp:127-137 | Taking a page from the allocator changes nothing that a client sees. |
| CacheManagement.GrownKeeps | CompoundFs/CacheManager.cpp:127-137 | Growing the file changes nothing that a client sees, and the new page is unused. |
| CacheManagement.DivertedValid | CompoundFs/CacheManager.cpp:150-162 | Writing a dirty page to an unused page keeps the cache's invariants: the page is not cached any more, its new place is a new page no other page was diverted to, and no committed page was touched. |
| CacheManagement.DivertedKeeps | CompoundFs/CacheManager.cpp:150-162 | A diverted page shows everyone what it showed before. |
| CacheManagement.WrittenOutKeeps | CompoundFs/CacheManager.cpp:164-173 | A new page written to its own place shows what it showed before, and no committed page is touched. |
| CacheManagement.DroppedKeeps | CompoundFs/CacheManager.cpp:175-179 | Dropping an unchanged page shows what the page showed before. |
| CacheManagement.AsNewKeeps | CompoundFs/CacheManager.cpp:36-44 | Taking an unused page as a new one changes what that page shows and no other. |
| CacheManagement.AtIsPlace | CompoundFs/Cache.h:35-41 | Where a page was diverted to is not diverted itself: one look-up is enough. |
| CacheManagement.PutKeeps | CompoundFs/CacheManager.cpp:48-63 | Reading a page in, pinning it or changing its class shows every client the same contents. |
| CacheManagement.PinnedStays | CompoundFs/CacheManager.cpp:108-124 | Whatever is evicted, a pinned page stays in memory with its contents and class. |
| CacheManagement.OverwriteKeeps | CompoundFs/CacheManager.cpp:69-97 | Writing to a page changes what this page shows, and no page at another place. |
| CacheManagement.CacheManager.constructor | CompoundFs/CacheManager.cpp:18-24 | A new cache shows the file as it is and nothing in it is touched. |
| CacheManagement.CacheManager.SetPageAllocator | CompoundFs/CacheManager.h:73-77 | The pages an allocator owns are pages nobody uses. |
| CacheManagement.CacheManager.AllocateFor | CompoundFs/CacheManager.cpp:127-137 | Allocation yields an unused page: one of the allocator, or a new one at the end of the file. |
| CacheManagement.CacheManager.NewPage | CompoundFs/CacheManager.cpp:29-33 | A new page is pinned, belongs to this transaction, and nothing else that clients see changes; the cache is trimmed afterwards. |
| CacheManagement.CacheManager.AsNewPage | CompoundFs/CacheManager.cpp:36-44 | The same for a page whose index the caller chose. |
| CacheManagement.CacheManager.LoadPage | CompoundFs/CacheManager.cpp:48-63 | Loading yields the last contents written to the page, wherever it lives now, and fails exactly when the page fails its checksum or does not exist. It pins the page once more and counts the use, or reads the page and then trims; nothing else in memory changes. |
| CacheManagement.CacheManager.SetPageDirty | CompoundFs/CacheManager.cpp:89-97 | A page becomes dirty, or new if it belongs to this transaction; its contents and references, and what it shows, stay. |
| CacheManagement.CacheManager.WriteToPage | CompoundFs/CacheManager.cpp:89-97 | Writing to a page makes it show the new contents, and changes nothing else in memory. |
| CacheManagement.CacheManager.Repurpose | CompoundFs/CacheManager.cpp:69-85 | The page can be written without having been read: it shows what it showed if it is in memory, and otherwise whatever the memory holds; only this page changes. |
| CacheManagement.CacheManager.Unpin | CompoundFs/CacheManager.cpp:140-148 | A client that lets go of a page changes nothing that anyone sees. |
| CacheManagement.CacheManager.TrimCheck | CompoundFs/CacheManager.cpp:100-104 | The check before eviction trims to the limit if the cache has grown over it and does nothing else; clients see what they saw. |
| CacheManagement.CacheManager.Trim | CompoundFs/CacheManager.cpp:108-124 | As many unpinned pages stay in memory as the given number allows, or all of them if they are fewer, and all pinned ones. Pages only read go first, then new ones, then changed ones, and of each kind those used least. Every client sees what it saw before. |
| CacheManagement.CacheManager.PickVictims | CompoundFs/CacheManager.cpp:108-118 | The victims are the unpinned pages that the order of eviction puts last, as many as exceed the number allowed, none if that is not reached. |
| CacheManagement.CacheManager.EvictDirtyPages | CompoundFs/CacheManager.cpp:150-162 | Every dirty victim is written to a place of its own and found there. |
| CacheManagement.CacheManager.EvictNewPages | CompoundFs/CacheManager.cpp:164-173 | Every new victim is written to its own page. |
| CacheManagement.CacheManager.RemoveFromCache | CompoundFs/CacheManager.cpp:175-179 | The victims leave the cache, and no client notices. |
| CommitProtocol.PublishedIsView | CompoundFs/CommitHandler.cpp:23-145 | The file that a commit leaves shows, on every page, what the transaction saw there; the exception are the places pages were diverted to, which keep what they held. |
| CommitProtocol.DirtyFacts | CompoundFs/CommitHandler.cpp:74-86 | A dirty page is a committed page of the file, never a new one. |
| CommitProtocol.CopyStepsPages | CompoundFs/CommitHandler.cpp:90-107 | Copying and flushing appends exactly the old contents of the dirty pages. |
| CommitProtocol.CrashBeforeCopies | CompoundFs/CommitHandler.cpp:90-107 | A crash before the first flush of a commit is through leaves the committed file recoverable. |
| CommitProtocol.LogStepsPages | CompoundFs/CommitHandler.cpp:148-158 | Writing and flushing the log appends the log pages behind the copies and changes nothing else. |
| CommitProtocol.LogPageCount | CompoundFs/CommitHandler.cpp:148-158 | As many log pages are written as it takes with 509 entries each. |
| CommitProtocol.LogPageAt | CompoundFs/CommitHandler.cpp:148-158 | All log pages but the last are full, each was made for the place where it stands, and together they hold the entries in order. |
| CommitProtocol.LogsComplete | CompoundFs/CommitHandler.cpp:148-158 | Scanning finds every entry that was logged, over any number of log pages. |
| CommitProtocol.LogsFrom | CompoundFs/RollbackHandler.cpp:42-67 | Every entry found by the scan stands in a log page of the file. |
| CommitProtocol.CrashInLog | CompoundFs/CommitHandler.cpp:148-158 | A crash while the log is written, whatever part of it survives, leaves the committed file recoverable. |
| CommitProtocol.LoggedCopy | CompoundFs/CommitHandler.cpp:90-107 | Every entry of the log names a dirty page and a page that holds its committed contents. |
| CommitProtocol.CrashInUpdate | CompoundFs/CommitHandler.cpp:111-145 | A crash while committed pages are overwritten, whatever part of that survives, leaves the committed file recoverable. |
| CommitProtocol.CommitLegal | CompoundFs/CommitHandler.cpp:23-55 | All file operations of a commit are possible when their turn comes. |
| CommitProtocol.CommitAtomic | CompoundFs/CommitHandler.cpp:23-145 | A crash at any step of a commit, with any part of the unflushed writes lost: until the log is cut off, recovery gives the file before the transaction; then the file is the one that the transaction saw. Never a mixture. |
| CommitHandling.CommitHandler.GetDirtyPageIds | CompoundFs/CommitHandler.cpp:74-86 | The list holds exactly the dirty pages, each once. |
| CommitHandling.CommitHandler.CopyDirtyPages | CompoundFs/CommitHandler.cpp:90-107 | The file operations done are exactly those of the protocol's first phase. |
| CommitHandling.CommitHandler.WriteLogs | CompoundFs/CommitHandler.cpp:148-158 | The file operations done are exactly the log pages of the protocol. |
| CommitHandling.CommitHandler.ShowPage | CompoundFs/CommitHandler.cpp:111-132 | The page in the file becomes what the transaction saw, from memory or from where it was diverted to. |
| CommitHandling.CommitHandler.UpdateDirtyPages | CompoundFs/CommitHandler.cpp:111-132 | Every dirty page is brought up to date, in the protocol's order. |
| CommitHandling.CommitHandler.WriteCachedPages | CompoundFs/CommitHandler.cpp:135-145 | All new pages still in memory are written, each once, and cache and new ids are empty. |
| CommitHandling.CommitHandler.WriteAhead | CompoundFs/CommitHandler.cpp:30-47 | Copies and log are flushed before any committed page is touched. |
| CommitHandling.CommitHandler.CommitDirty | CompoundFs/CommitHandler.cpp:23-55 | The file operations of a commit are exactly those of the protocol, and it ends with the published file and an empty cache. |
| CommitHandling.CommitHandler.LockedWriteCachedPages | CompoundFs/CommitHandler.cpp:57-69 | Without dirty pages the new pages are written in place and nothing is flushed. |
| CommitHandling.CommitHandler.Commit | CompoundFs/CommitHandler.cpp:23-47 | When a commit returns, the file is what the transaction saw, and the cached, diverted and new pages are empty. |
| CommitHandling.DirtyPlaces | CompoundFs/CommitHandler.cpp:111-132 | The places of different dirty pages differ, and updating one overwrites the source of none. |
| CommitHandling.LatePages | CompoundFs/CommitHandler.cpp:57-69 | Writing the new pages in place gives the published file. |
| RollbackHandling.RollbackHandler.ReadLogs | CompoundFs/RollbackHandler.cpp:42-67 | The log found is the one the recovery protocol speaks of. |
| RollbackHandling.RollbackHandler.RevertPartialCommit | CompoundFs/RollbackHandler.cpp:13-19 | The pages written back are exactly those of the recovery protocol; it reports a copy that cannot be read. |
| RollbackHandling.RollbackHandler.RevertAndCut | CompoundFs/RollbackHandler.cpp:13-33 | Opening for writing does exactly the file operations of recovery. |
| RollbackHandling.RollbackHandler.VirtualRevertPartialCommit | CompoundFs/RollbackHandler.cpp:35-40 | Opening for reading writes nothing and installs the redirections. |
| RollbackHandling.RollbackHandler.Rollback | CompoundFs/RollbackHandler.cpp:21-33 | Giving up a transaction cuts the file to the given size and leaves a cache without pages of it; every page below the committed size that the transaction did not take for itself is as committed. |
| RollbackHandling.RolledBackValid | CompoundFs/RollbackHandler.cpp:21-33 | The state after a rollback is one a transaction can start from. |
| RollbackHandling.ReadersAgreeWithWriters | CompoundFs/RollbackHandler.cpp:13-67 | After a crash at any step of a commit, a reader that opens the file sees on every page what a writer sees after recovery, and that is the committed contents. |
| RollbackHandling.CrashBeforeCommit | CompoundFs/CacheManager.cpp:69-97 | In every state before a commit no committed page outside the new ids has been written, so a crash costs nothing and finds no log. |
| RollbackHandling.UnflushedCommit | CompoundFs/CommitHandler.cpp:57-69 | A commit without dirty pages survives every crash if and only if what it publishes was on disk before. |
| RollbackHandling.UnflushedCommitLoses | CompoundFs/CommitHandler.cpp:57-69 | One new page, committed: a crash may leave the page blank. |
| RollbackHandling.SettledCommit | CompoundFs/CommitHandler.cpp:57-69 | With nothing unflushed before, a commit without dirty pages survives every crash if and only if each new page in memory is in the file already as it is in memory. |
| CacheRuns.Step | CompoundFs/CacheManager.cpp:29-100 | Any single operation of a client, a commit and a rollback included, keeps every page the client knows at the contents given to it last, keeps account of the pages taken over as new, and answers as these say; it fails only where a page has no checksum. |
| CacheRuns.Run | CompoundFs/CacheManager.h:25-30 | Over any run of operations with any number of commits and rollbacks, each load yields the last contents written to the page, or the committed ones after a rollback, whatever is evicted in between. A rollback takes away exactly those committed pages that the transaction had taken over as new, and every committed page nobody used so far can be taken over. |
| CacheRuns.RunFrom | CompoundFs/CacheManager.cpp:18-24 | The same from a new cache on any file that has no log and is flushed: the client knows every page of it, and none is taken over. |
| CacheRuns.ShowsPublished | CompoundFs/CommitHandler.cpp:18-69 | After a commit the file itself shows every page as the client saw it. |
| CacheRuns.ShowsBack | CompoundFs/RollbackHandler.cpp:21-33 | After a rollback the file shows every committed page, except those the transaction had taken for itself. |
| LogPages.SignatureTells | CompoundFs/LogPage.h:33-48 | A signature tells page indices apart up to multiples of 2147483647, and it does not tell 0 and 1 apart. |
| LogPages.EntriesFit | CompoundFs/LogPage.h:20-28 | Between the number of entries and the checksum 509 entries find room in a page of 4096 bytes, and not one more. |
| LogPages.LogPage.constructor | CompoundFs/LogPage.h:33-41 | A new page has the signature of its index and no entries. |
| LogPages.LogPage.CheckSignature | CompoundFs/LogPage.h:43-48 | A page passes if and only if its first words are the signature of the index and the number of entries is possible. |
| LogPages.LogPage.PushBack | CompoundFs/LogPage.h:58-66 | One more entry if and only if there is room; the bytes of the others, the signature and the checksum stay. |
| LogPages.LogPage.PushBackAll | CompoundFs/LogPage.h:68-78 | The first entries, as many as there is room for, in order; the rest is returned. |
| LogPages.LogPage.GetPageCopies | CompoundFs/LogPage.h:50-53 | The entries as they stand in the bytes. |
| LogPages.WriteAndRead | TestDriver/TestLogPage.cpp:14-58 | A log page made for one page passes for another if and only if their signatures are the same, and the entries read are the first 509 of those written. |
| ByteStrings.RankOrders | CompoundFs/ByteString.h:156-159 | Byte strings compare lexicographically, a total order. |
| Nodes.LowerBoundIs | CompoundFs/Leaf.h:103-107 | The first entry not below a key is the only position with smaller keys before and no smaller key from it on. |
| Nodes.FindFinds | CompoundFs/Leaf.h:109-117 | The search finds an entry if and only if the page has one with this key. |
| Nodes.SplitPointIs | CompoundFs/Leaf.h:161-172 | The split point is the first entry with which more than half of the bytes are passed. |
| Nodes.LeafSplitFits | CompoundFs/Leaf.h:145-172 | Whenever a leaf has no room for an entry, both halves hold something and both have room for it. |
| Nodes.ChildAtIs | CompoundFs/InnerNode.h:122-130 | The child chosen for a key is the one whose bounds the key respects. |
| Nodes.InnerSplitFits | CompoundFs/InnerNode.h:171-193 | Whenever an inner page has no room for a key, its halves have at least two keys each and room for it. |
| Nodes.CanMergeFits | CompoundFs/InnerNode.h:267-270 | The test before a merge lets exactly one size pass that does not fit. |
| Nodes.NoDivisor | CompoundFs/InnerNode.h:59-63 | No entry size from 7 to 262 divides the 4084 bytes of an inner page. |
| Nodes.MergeOfOneLength | CompoundFs/InnerNode.h:267-276 | With keys of one length pages that pass the test fit. |
| Trees.FlatSorted | CompoundFs/BTree.cpp:195-206 | The entries of a search tree are in ascending order within its bounds. |
| Trees.PlugWf | CompoundFs/BTree.cpp:195-206 | A search tree put into an open place of its height and bounds makes the whole one again. |
| Trees.DescendOk | CompoundFs/BTree.cpp:195-206 | Going down to the child for a key keeps the key within bounds and the rest of the tree a search tree. |
| TreeInsert.LeafSplitJoins | CompoundFs/Leaf.h:145-158 | The halves of a split leaf, the new entry among them, make the sorted whole. |
| TreeInsert.LeafSplitSorted | CompoundFs/Leaf.h:145-158 | Both halves are sorted, and the first key on the right separates them. |
| TreeInsert.WideWf | CompoundFs/BTree.cpp:208-229 | A page that takes a new child has ascending keys and children within its bounds. |
| TreeInsert.SplitIsCut | CompoundFs/InnerNode.h:171-193 | Splitting first and inserting then cuts the page with the new key in it at one place. |
| TreeInsert.CutFits | CompoundFs/InnerNode.h:183-193 | Both halves of the cut page have at least two keys and fit. |
| TreeInsert.PutIsMapPut | CompoundFs/BTree.cpp:31-61 | Inserting into the sorted entries is inserting into the map they make. |
| TreeInsert.DropIsMapDrop | CompoundFs/BTree.cpp:146-157 | Dropping an entry is deleting its key from the map. |
| TreeInsert.OutsideHole | CompoundFs/BTree.cpp:195-206 | Whether a key is in the tree is decided by the leaf in whose range it falls. |
| TreeSteps.Absorb | CompoundFs/BTree.cpp:208-229 | An inner page with room takes the new child and the tree is a search tree again, on these pages. |
| TreeSteps.SplitUp | CompoundFs/BTree.cpp:208-229 | A full inner page splits in two legal halves and the next page up gets the middle key. |
| TreeSteps.GrowRoot | CompoundFs/BTree.cpp:231-249 | The root keeps its page index when the tree grows; all leaves stay at one depth. |
| TreeSteps.SplitLeaf | CompoundFs/BTree.cpp:63-78 | A leaf split leaves two legal leaves on their pages. |
| TreeSteps.SplitChain | CompoundFs/BTree.cpp:63-78 | The new leaf comes behind the split one in the chain. |
| TreeRemove.GapWf | CompoundFs/InnerNode.h:132-168 | Without a child, its neighbour's bounds widen and the page is legal. |
| TreeRemove.GapPage | CompoundFs/InnerNode.h:132-168 | The removal takes out exactly the dead child and the separator that goes with it. |
| TreeRemove.ShrunkSettled | CompoundFs/BTree.cpp:172-186 | A page that keeps two keys makes the tree whole. |
| TreeRemove.Collapse | CompoundFs/BTree.cpp:161-190 | The root page takes over the contents of its only child; leaves stay at one depth. |
| TreeRemove.JoinWf | CompoundFs/InnerNode.h:272-276 | Two neighbours with the separator between them make a legal page. |
| TreeRemove.MergeIs | CompoundFs/InnerNode.h:272-276 | Merging yields the keys of the left page, the separator and the keys of the right page. |
| TreeRemove.RedistributeIs | CompoundFs/InnerNode.h:195-221 | Sharing cuts the joined keys at one place and moves the key there up. |
| TreeRemove.RedistributeFits | CompoundFs/InnerNode.h:195-221 | Neighbours that cannot be merged, one with a single key: both get at least two keys and fit. |
| TreeUnderflow.FindKeyIs | CompoundFs/BTree.cpp:118-132 | The separator found is one next to the child that holds the key. |
| TreeUnderflow.Shared | CompoundFs/BTree.cpp:118-144 | Sharing makes the tree whole, with the same contents. |
| TreeUnderflow.Merged | CompoundFs/BTree.cpp:118-144 | Merging leaves a gap in the page above in place of the freed page, and keeps the contents. |
| TreeLinks.UnlinkKeepsChain | CompoundFs/BTree.cpp:104-116 | An emptied leaf drops out of the chain if and only if its link to the left is right. |
| TreeLinks.UnlinkKeepsBoth | CompoundFs/BTree.cpp:104-116 | With right links in both directions all links stay right. |
| TreeLinks.UnlinkAfterSplit | CompoundFs/BTree.cpp:63-78 | A split leaves the next leaf's link to the left stale; removing that leaf then breaks the chain. |
| TreeLinks.UnlinkOutside | CompoundFs/BTree.cpp:104-116 | Pages outside the tree keep their contents when a leaf leaves the chain, if and only if none of the links of this leaf leads to one of them that leads elsewhere. |
| TreeLinks.UnlinkInside | CompoundFs/BTree.cpp:104-116 | With right links in both directions only leaves of the chain are written. |
| TreeLinks.UnlinkWritesFreed | CompoundFs/BTree.cpp:63-78 | A leaf splits and is emptied, then the leaf that was next to it: the second removal writes the page that the first one freed. |
| KeyLengths.RoomIs | CompoundFs/BTree.cpp:118-144 | Where two pages merge there is room if and only if the merged page is not the one size that the test forgets; where they share keys, if and only if the separator above does not grow by more than the page above has left. |
| KeyLengths.RoomOfOneLength | CompoundFs/BTree.cpp:118-144 | With keys of one length there always is room. |
| KeyLengths.NoRoomToMerge | CompoundFs/BTree.cpp:132-143 | Neighbours of just the size that passes the test before a merge although the merged page does not fit. |
| KeyLengths.NoRoomToShare | CompoundFs/BTree.cpp:132-139 | Neighbours that cannot be merged, a full page with long keys on the right, and a short separator between: sharing them needs more room above than the page has. |
| TreeRemoval.LeafDropped | CompoundFs/BTree.cpp:158-166 | Without an emptied leaf the rest is a tree with a gap, and the chain leads past the leaf. |
| TreeRemoval.SomethingLeft | CompoundFs/BTree.cpp:158-166 | A leaf that is not the root has company: the tree does not become empty by dropping it. |
| TreeRemoval.StuckUp | CompoundFs/BTree.cpp:161-190 | A page that drops to a single key gets a removal stuck if and only if the pages it shares or merges with have no room, or they merge and the next page up gets it stuck. |
| TreeCursors.StepOn | CompoundFs/BTree.cpp:291-305 | Where the entries of one leaf end, those of the next leaf in the chain begin. |
| TreeCursors.LeavesFull | CompoundFs/BTree.cpp:291-305 | Only a tree that is a single leaf has an empty leaf. |
| TreeCursors.BeginMayMiss | CompoundFs/BTree.cpp:279-289 | A legal tree and a key for which the leaf searched has no answer, although the tree has one. |
| BTrees.BTree.constructor | CompoundFs/BTree.cpp:15-21 | A new tree is empty and has one page, which has no neighbours. |
| BTrees.BTree.FindLeaf | CompoundFs/BTree.cpp:195-206 | The leaf found is the one in whose range the key falls, and the stack is the path to it. |
| BTrees.BTree.FindValue | CompoundFs/BTree.cpp:268-277 | A search yields the value of the map, or nothing if and only if the map has none. |
| BTrees.BTree.Insert | CompoundFs/BTree.cpp:31-92 | Insertion refines the map: inserted, replaced with the old value or left alone as the policy says; the root keeps its page, no page is lost or used twice, the chain of leaves stays right. Only the leaf of the key and the pages on the way to it are written, and new ones; which leaf holds what then and where its links lead is stated exactly. With right links to the left all stay right if and only if no leaf splits or the one that does is the last. |
| BTrees.BTree.InsertNewKey | CompoundFs/BTree.cpp:63-78 | A new key goes into its leaf, which alone is written if it has room; otherwise the leaf becomes two, linked to each other, and the number of new pages is one and those of the cascade above. |
| BTrees.BTree.Propagate | CompoundFs/BTree.cpp:208-229 | Any cascade of inner splits ends in a search tree with both halves in it: one new page for each full page on the way, and one more if the root was full; no other leaf is written, and no page off the way. |
| BTrees.BTree.GrowTree | CompoundFs/BTree.cpp:231-249 | The root page gets two children and keeps its index; if it was a leaf, what it held is on a new page and the right leaf leads back there. |
| TreeGrowth.SplitKeepsBack | CompoundFs/BTree.cpp:63-78 | A leaf split keeps all links to the left right if and only if no leaf is behind the one that splits. |
| TreeGrowth.SplitKeepsLeft | CompoundFs/BTree.cpp:63-78 | Whether the link of a leaf to the left is right stays as it was, save for the leaf behind the two halves, whose link is wrong afterwards; that of the new leaf is right. |
| BTrees.LastFor | CompoundFs/BTree.cpp:195-206 | A key above all that are in the tree belongs in the last leaf. |
| BTrees.BTree.HandleUnderflow | CompoundFs/BTree.cpp:118-144 | A page with a single key shares or merges; it is stuck exactly when the page it needs is too small. |
| BTrees.BTree.UnlinkLeaf | CompoundFs/BTree.cpp:104-116 | The neighbours of a leaf are linked to each other and nothing else changes. |
| BTrees.BTree.TakeOver | CompoundFs/BTree.cpp:172-186 | The root page takes its only child over, frees the child's page and writes no other. |
| BTrees.BTree.CloseOne | CompoundFs/BTree.cpp:161-190 | One page loses a child: the tree is whole again, or the page above lacks one; it gets stuck exactly when the pages say so beforehand. |
| BTrees.BTree.CloseGap | CompoundFs/BTree.cpp:161-190 | The loop up the stack terminates and leaves a search tree with the same entries, unless the pages on the path have no room; it writes only pages of the tree. |
| BTrees.BTree.DropLeaf | CompoundFs/BTree.cpp:158-190 | An emptied leaf is freed; an emptied root is listed as free although it stays in use. The chain stays right if and only if the link of the leaf to the left is; pages outside the tree change by these links only; no leaf but its neighbours is written, save that the root may take over the last one left. |
| BTrees.BTree.RemoveEntry | CompoundFs/BTree.cpp:146-160 | The leaf loses the entry with the key and nothing else changes; if it is empty then, it leaves chain and tree. |
| BTrees.BTree.Remove | CompoundFs/BTree.cpp:146-193 | Removal refines map deletion. It runs out of room if and only if the key was the only one of its leaf and, on the path of the pages as they were, neighbours that have to share or merge lack room. Page conservation holds afterwards if and only if the map did not become empty; a right chain of leaves stays right if and only if the leaf keeps an entry or its link to the left is right; outside the tree nothing is written but pages that a link of an emptied leaf leads to, and none with right links in both directions. What every leaf holds afterwards and where its links lead is stated exactly. |
| BTrees.BTree.Begin | CompoundFs/BTree.cpp:279-289 | The cursor stands on the first entry of the whole tree not below the key, in the leaf in whose range the key falls; it is empty if and only if all entries of that leaf are below the key, which a key of the tree never is. |
| BTrees.BTree.Next | CompoundFs/BTree.cpp:291-305 | On a chained tree the next entry follows, and after the last one the end. |
| BTrees.BTree.VisitAll | CompoundFs/BTree.cpp:279-305 | Walking from the beginning visits every entry once, in ascending order. |
| StuckTrees.MergeMayNotFit | CompoundFs/BTree.cpp:118-144 | A legal tree with right links in both directions, and a key in it that cannot be removed: two inner pages pass the test before a merge and the merged page does not fit. |
| StuckTrees.ShareMayNotFit | CompoundFs/BTree.cpp:132-139 | A legal tree with right links in both directions, and a key in it that cannot be removed: two inner pages share keys and the page above has no room for the longer separator. |
| StuckTrees.RemoveInVain | CompoundFs/BTree.cpp:146-193 | Removing these keys from these trees fails for want of room. |
| TreeRuns.RunAll | TestDriver/TestBTree.cpp:254-351 | Any run of insertions and removals with keys of one length never gets stuck and makes of the tree what it makes of the map; no page is lost or used twice if and only if no removal takes the last entry. |
| TreeRuns.PutAndVisit | TestDriver/TestBTree.cpp:483-502 | A walk after any insertions into a new tree yields each key once, in ascending order, with the value put last. |
| TreeRuns.PutAscending | CompoundFs/BTree.cpp:31-92 | Keys that come in ascending order, all above those in the tree, leave the links in both directions right. |
| Slots.TiledOnce | CompoundFs/Leaf.h:87-143 | Every byte of the data area belongs to exactly one entry. |
| Slots.TilesInsert | CompoundFs/Leaf.h:87-101 | With a new entry at the end of the data and its slot in between, the offsets tile the longer area. |
| Slots.InsertPage | CompoundFs/Leaf.h:87-101 | The bytes after an insertion are a page with the new item at its place in the table. |
| Slots.TilesRemove | CompoundFs/Leaf.h:119-143 | With the data behind an entry moved down and later offsets adjusted, the offsets tile the shorter area. |
| Slots.RemovePage | CompoundFs/Leaf.h:119-143 | The bytes after a removal are the page without the item. |
| Slots.FirstNotBelow | CompoundFs/Leaf.h:103-107 | The binary search of the slot table yields the first key not below the one sought. |
| Slots.Copy | CompoundFs/Leaf.h:132-136 | Copying to an overlapping place moves the bytes as they were. |
| Slots.WriteItem | CompoundFs/Leaf.h:91-95 | Writing behind the data leaves the page's items as they are. |
| Slots.OpenSlot | CompoundFs/Leaf.h:97-100 | The table opens and the item just written belongs to the page. |
| Slots.DropSlot | CompoundFs/Leaf.h:128-142 | Compaction and offset adjustment together are deletion from the sequence. |
| Slots.AdjustSlots | CompoundFs/Leaf.h:139-142 | Exactly the slots that point behind the removed entry move down by its size. |
| Slots.CopySlots | CompoundFs/InnerNode.h:230-265 | A stretch of another page's slots becomes part of this page, in order. |
| LeafPages.Leaf.BytesLeft | CompoundFs/Leaf.h:46-50 | The bytes left are exactly those that entries and slots do not take. |
| LeafPages.Leaf.HasSpace | CompoundFs/Leaf.h:52-56 | The test tells exactly whether the entry fits. |
| LeafPages.Leaf.GetKey | CompoundFs/Leaf.h:68-72 | The key stored for the entry. |
| LeafPages.Leaf.GetValue | CompoundFs/Leaf.h:80-85 | The value stored for the entry. |
| LeafPages.Leaf.FindKey | CompoundFs/Leaf.h:109-117 | The position of the key in the sequence, or its end. |
| LeafPages.Leaf.Insert | CompoundFs/Leaf.h:87-101 | The bytes become those of the sorted sequence with the entry. |
| LeafPages.Leaf.Remove | CompoundFs/Leaf.h:119-143 | The bytes become those of the sequence without the key; without the key in it nothing changes. |
| LeafPages.Leaf.FindSplitPoint | CompoundFs/Leaf.h:161-172 | The split point of the sequence. |
| LeafPages.Leaf.Fill | CompoundFs/Leaf.h:174-187 | The page holds the given stretch of the other page's entries and nothing else. |
| LeafPages.Leaf.Split | CompoundFs/Leaf.h:145-158 | Both pages hold what the split of the sequence says, the new entry among them. |
| Words.IdRoundTrip | CompoundFs/InnerNode.h:279-291 | A page index survives being stored in four bytes. |
| InnerPages.InnerNode.Root | CompoundFs/InnerNode.h:36-45 | A page with one separator and two children. |
| InnerPages.InnerNode.Size | CompoundFs/InnerNode.h:49-57 | Exactly the bytes that keys, page indices and slots take. |
| InnerPages.InnerNode.HasSpace | CompoundFs/InnerNode.h:59-63 | The test tells exactly whether the key fits. |
| InnerPages.InnerNode.GetLeft | CompoundFs/InnerNode.h:79-84 | The child left of a separator. |
| InnerPages.InnerNode.GetRight | CompoundFs/InnerNode.h:86-90 | The child right of a separator. |
| InnerPages.InnerNode.FindPage | CompoundFs/InnerNode.h:122-130 | The child that holds the key. |
| InnerPages.InnerNode.FindSeparator | CompoundFs/InnerNode.h:113-120 | The separator of the child that holds the key. |
| InnerPages.InnerNode.Insert | CompoundFs/InnerNode.h:98-111 | The bytes become those of the page with the key and the child on its right. |
| InnerPages.InnerNode.Remove | CompoundFs/InnerNode.h:132-168 | The bytes become those of the page without the child that holds the key. |
| InnerPages.InnerNode.FindSplitPoint | CompoundFs/InnerNode.h:293-304 | The first slot with which the data passed is more than the limit. |
| InnerPages.InnerNode.CopyToFront | CompoundFs/InnerNode.h:230-247 | Slots of another page come before those of this page. |
| InnerPages.InnerNode.CopyToBack | CompoundFs/InnerNode.h:249-265 | Slots of another page come behind those of this page. |
| InnerPages.InnerNode.Fill | CompoundFs/InnerNode.h:306-310 | The slots of another page become the only ones. |
| InnerPages.InnerNode.Halve | CompoundFs/InnerNode.h:171-180 | The halves around the middle key, which leaves the page. |
| InnerPages.InnerNode.Split | CompoundFs/InnerNode.h:183-193 | The halves of the sequence's split, the new key in the one it belongs to. |
| InnerPages.InnerNode.CanMergeWith | CompoundFs/InnerNode.h:267-270 | The test as the code makes it, one byte short. |
| InnerPages.InnerNode.MergeWith | CompoundFs/InnerNode.h:272-276 | The bytes become those of the merged page. |
| InnerPages.InnerNode.Redistributed | CompoundFs/InnerNode.h:195-221 | The bytes of both pages become those of the shared ones; the result is the new separator. |
| Intervals.PushPages | CompoundFs/IntervalSequence.h:20-35 | Appending an interval, merged with its neighbour or not, appends its pages. |
| Intervals.PushAllApart | CompoundFs/IntervalSequence.h:20-35 | Intervals that do not touch come through unchanged. |
| Intervals.SortedPages | CompoundFs/IntervalSequence.h:91-98 | Sorting keeps the pages. |
| Intervals.SortedOrdered | CompoundFs/IntervalSequence.h:91-98 | Sorted intervals begin in ascending order. |
| Intervals.MergePages | CompoundFs/IntervalSequence.h:98-108 | Merging neighbours keeps the pages. |
| Intervals.NoneContinues | CompoundFs/IntervalSequence.h:98-108 | Among sorted disjoint intervals it is enough that no interval continues its neighbour: then none continues any other. |
| Intervals.IntervalSequence.PushBack | CompoundFs/IntervalSequence.h:20-35 | The sequence and its total length grow by the interval. |
| Intervals.IntervalSequence.PopFront | CompoundFs/IntervalSequence.h:60-67 | The first interval leaves the sequence. |
| Intervals.IntervalSequence.PopPages | CompoundFs/IntervalSequence.h:69-81 | As many pages of the first interval as asked for or as it has leave the front; the pages left are the rest. |
| Intervals.IntervalSequence.Sort | CompoundFs/IntervalSequence.h:91-108 | The same pages, ascending, neighbours made one; disjoint intervals stay disjoint and no two touch. |
| Intervals.IntervalSequence.MoveTo | CompoundFs/IntervalSequence.h:110-115 | Everything goes to the end of the other sequence. |
| FileTables.PackedAt | CompoundFs/FileTable.h:42-66 | Where interval number k was packed its bounds are found, marked if it is longer than one page. |
| FileTables.RoundTrip | CompoundFs/FileTable.h:42-88 | Reading a packed page returns the intervals packed. |
| FileTables.RoomForOne | CompoundFs/FileTable.h:97-102 | An empty page takes at least one interval. |
| FileTables.RoomFits | CompoundFs/FileTable.h:97-102 | What was taken fits, and nothing more would. |
| FileTablePages.FileTable.TransferFrom | CompoundFs/FileTable.h:42-66 | The page takes as many intervals as find room, from the front and in order, and the sequence keeps the rest. |
| FileTablePages.FileTable.InsertInto | CompoundFs/FileTable.h:68-88 | The intervals packed into the bytes are appended to the sequence. |
| FileStores.BytesAt | CompoundFs/FileReader.h:54-100 | Page number i of a file holds its bytes from 4096 i on. |
| FileStores.FillLast | CompoundFs/FileWriter.h:61-70 | Writing into the rest of the last page appends to the content. |
| FileStores.AddPages | CompoundFs/FileWriter.h:71-88 | Fresh pages behind full ones append to the content. |
| FileStores.FileFrame | CompoundFs/FileWriter.h:45-54 | A file is not affected by what happens to pages and tables that are not its own. |
| FileWriters.FileWriter.Write | CompoundFs/FileWriter.h:56-95 | The content grows by exactly the bytes given, through partial pages, whole pages and a full page sequence. Of the pages and tables in the store only the last page and the last table of this file are written, and what the file takes nobody used. |
| FileWriters.FileWriter.WriteBytes | CompoundFs/FileWriter.h:56-88 | The rest of the last page, whole pages and the beginning of one more hold the bytes; only the last page of this file is written among those in the store. |
| FileWriters.FileWriter.WriteWhole | CompoundFs/FileWriter.h:71-80 | Fresh whole pages hold the bytes, and no page in the store is written. |
| FileWriters.FileWriter.PushFileTable | CompoundFs/FileWriter.h:97-120 | The page sequence goes into chained tables: the content stays, and every table takes something. Only the last table of this file is written among those in the store; new tables are on pages nobody used. |
| FileWriters.FileWriter.Close | CompoundFs/FileWriter.h:45-54 | The descriptor leads to the whole content; no table of another file is touched. |
| FileWriters.FileWriter.OpenAppend | CompoundFs/FileWriter.h:33-43 | Writing goes on where the file ended. |
| FileWriters.FlushFirst | CompoundFs/FileWriter.h:97-120 | The first table filled lists what was in the page sequence before the rest. |
| FileWriters.FlushNext | CompoundFs/FileWriter.h:97-120 | A table chained to the last one lists what comes next. |
| FileReaders.FileReader.Open | CompoundFs/FileReader.h:26-38 | A reader opened for the first time, or again after the end of a file, reads the file from its beginning; one opened again before the end reads the pages left over first, and the pages it reads are those of the file alone if and only if none were left over. |
| FileReaders.FileReader.NextInterval | CompoundFs/FileReader.h:40-52 | The next run of pages of the file, over chained tables; with zero the page stays. |
| FileReaders.FileReader.Read | CompoundFs/FileReader.h:54-100 | The bytes read are the next ones of the content, as many as asked for or left. |
| FileReaders.FileReader.ReadRest | CompoundFs/FileReader.h:66-82 | The rest of a page begun before. |
| FileReaders.FileReader.ReadWhole | CompoundFs/FileReader.h:83-91 | Whole pages. |
| FileReaders.FileReader.ReadBeginning | CompoundFs/FileReader.h:92-98 | The beginning of a page, which stays current. |
| FileSessions.WriteSessions | CompoundFs/FileWriter.h:33-120 | Any pieces, in any number of sessions with close and append between, at any high-water mark, make one file with the concatenation as its content; whatever was in the store before stays as it is. |
| FileSessions.Session | CompoundFs/FileWriter.h:33-120 | One session of appending and closing: the file grows by the pieces, and keeps to its own pages and tables and to those nobody used. |
| FileSessions.WriteFiles | CompoundFs/FileWriter.h:33-120 | Sessions of any number of files in any order with one writer: each file holds what was written to it, no two share a page or a table, and whatever was in the store before stays as it is. |
| FileSessions.WriteAndRead | CompoundFs/FileReader.h:26-100 | Each of these files, read as a whole, is what was written to it. |
| FilesTogether.WriteTogether | TestDriver/TestFileReaderWriter.cpp:274-310 | As many writers as files are open all the time, and what they write comes in any order: each file holds what was written to it, no two share a page or a table, and whatever was in the store before stays as it is. |
| FilesTogether.Put | CompoundFs/FileWriter.h:56-95 | When one writer writes, its file grows by that and all others, open ones included, stay as they are. |
| FilesTogether.Finish | CompoundFs/FileWriter.h:45-54 | When one writer closes its file, that is finished and the others stay as they are. |
| FilesTogether.TogetherAndRead | CompoundFs/FileReader.h:26-100 | Each of these files, read as a whole, is what was written to it. |
| FileSessions.ReadBack | CompoundFs/FileReader.h:26-100 | Reads of any sizes return that content, up to its end. |
| FreeTables.PushFirst | CompoundFs/FreeStore.h:190-198 | Filling the head table moves pages from the pool to the list and loses none. |
| FreeTables.PushNext | CompoundFs/FreeStore.h:199-211 | Chaining a table, taken from the pool or new, keeps every page exactly once. |
| FreeTables.PushDone | CompoundFs/FreeStore.h:190-216 | When the pool is empty the list holds everything. |
| FreeTables.ChainStep | CompoundFs/FreeStore.h:235-247 | Linking a file's tables to the list moves its pages into the list. |
| FreeTables.ChainDone | CompoundFs/FreeStore.h:218-233 | The finished list is a chain without repetition that holds everything once. |
| FreeTables.SplitStep | CompoundFs/FreeStore.h:136-153 | A file of one table gives its pages to the pool and its table to the free pages; others stay. |
| FreeStores.FreeStore.constructor | CompoundFs/FreeStore.h:25-31 | The store answers for what the list holds. |
| FreeStores.FreeStore.Allocate | CompoundFs/FreeStore.h:33-62 | What is given is the beginning of the first interval at hand, as many pages as asked for or as it has; at hand is what was left of the loaded tables, and if that is too little, as many further tables are loaded as it takes, sorted and joined. The pages leave the store and nothing else does; nothing is allocated if and only if the size is zero; the list is exhausted with a size left if and only if no page is left. |
| FreeStores.FreeStore.LoadTables | CompoundFs/FreeStore.h:42-58 | As many tables are loaded as a request needs and not one more; what they list is at hand, sorted and joined, and their pages are free; no page is lost. |
| FreeStores.FreeStore.Deallocate | CompoundFs/FreeStore.h:65-65 | The page joins those that become free with the commit. |
| FreeStores.FreeStore.DeallocateStillInUse | CompoundFs/FreeStore.h:66-66 | The page joins those that become free but are still in use. |
| FreeStores.FreeStore.DeleteFile | CompoundFs/FreeStore.h:70-78 | Data and table pages of the file join the store; its size counts whole pages. |
| FreeStores.FreeStore.Close | CompoundFs/FreeStore.h:80-101 | The list written holds, each page once and tables included, exactly what the store answered for and the pages grown for tables; no page still in use is a table; nothing is grown if none is in use; every table fits its page; the size is what was left plus a page for each that became free, and it covers what is listed; nothing that the store does not answer for is written. |
| FreeStores.FreeStore.Prepare | CompoundFs/FreeStore.h:82-91 | Bringing head and descriptor up to date loses nothing. |
| FreeStores.FreeStore.SplitFiles | CompoundFs/FreeStore.h:136-153 | Files of one table are taken apart without a loss. |
| FreeStores.FreeStore.AddRemaining | CompoundFs/FreeStore.h:155-172 | Free table pages, pages in use and intervals left join the pool, without a loss. |
| FreeStores.FreeStore.PushTables | CompoundFs/FreeStore.h:190-216 | The pool goes into tables; the loop terminates and no table is a page still in use. |
| FreeStores.FreeStore.NextTable | CompoundFs/FreeStore.h:174-182 | The next table is the first page of the pool, which then has the rest, unless that page is in use; then it is a new page and the pool stays. |
| FreeStores.FreeStore.ChainFiles | CompoundFs/FreeStore.h:218-247 | All files to delete become part of the list. |
| FreeStores.InUseApart | CompoundFs/FreeStore.h:174-182 | Pages still in use are neither tables of the list nor part of a file. |
| FreeStoreRuns.AllocateAll | CompoundFs/FreeStore.h:33-62 | Whatever is asked for at a time, every free page is handed out once; the store ends with a size left if and only if its size counts more pages than it lists. |
| FreeStoreRuns.CloseEvens | CompoundFs/FreeStore.h:190-216 | More than 1021 pages become free, no two of them neighbours, and the list is closed and opened again: it lists fewer pages than its size counts, since one became a table. |
| FreeStoreRuns.RunOut | CompoundFs/FreeStore.h:33-62 | Such a store runs out of pages with a size left. |
| CompressedIntegers.SizeIsLength | Rfx/CompressedInteger.h:19-23 | The size computed is the length of the encoding. |
| CompressedIntegers.LebAt | Rfx/CompressedInteger.h:47-61 | Byte number k holds bits 7k to 7k + 6 of the number and tells whether more bytes follow. |
| CompressedIntegers.LebRoundTrip | Rfx/CompressedInteger.h:43-83 | Reading what was written gives the number and stops behind it, for all 64-bit numbers. |
| CompressedIntegers.ReadLebIs | Rfx/CompressedInteger.h:63-82 | What is read of any bytes ends with the first one below 128; no such byte among the first ten is an error, and what goes beyond 64 bits is lost. |
| FixupTables.ReversedTwice | Rfx/FixupTable.h:40-48 | Storing backwards and reading backwards cancel out. |
| FixupTables.SizesRead | Rfx/FixupTable.h:40-61 | The entries are read as they were written. |
| FixupTables.SealOpens | Rfx/FixupTable.h:40-61 | Opening a stream finds its table of fixups and the bytes before it. |
| FixupTables.WeightIsLength | Rfx/FixupTable.h:25-35 | The size kept up to date while entries are closed is the length of their encoding. |
| FixupTables.FixupTable.NextFixup | Rfx/FixupTable.h:25-35 | A new open entry. |
| FixupTables.FixupTable.Fix | Rfx/FixupTable.h:25-35 | The entry is closed with the length and the size kept stays right. |
| FixupTables.FixupTable.SizeInBytes | Rfx/FixupTable.h:37-37 | Exactly the bytes the table takes. |
| FixupTables.FixupTable.PutSize | Rfx/CompressedInteger.h:47-61 | A number is written backwards before what is there. |
| FixupTables.FixupTable.Write | Rfx/FixupTable.h:40-48 | The end of the buffer is the table, backwards. |
| FixupTables.FixupTable.GetSize | Rfx/CompressedInteger.h:63-82 | A number is read backwards from a position. |
| FixupTables.FixupTable.Read | Rfx/FixupTable.h:50-61 | The table read is the one at the end of the stream; failures are reported. |
| SchemaEvolution.CodeSize | Rfx/Stream.h:25-43 | Every value takes at least one byte, and no more fixups than bytes. |
| SchemaEvolution.FrameReads | Rfx/Stream.h:119-133 | However much of a versioned value its reader understands, both cursors stand behind the value afterwards. |
| SchemaEvolution.ReadsBack | Rfx/Stream.h:112-138 | For any two versions of any nested type, arrays that grow included where their elements can be skipped: the reader gets the common prefix, keeps what it had for the rest, ends at the end of the value, and its fixup cursor keeps in step. |
| SchemaEvolution.AllRead | Rfx/StreamRule.h:96-106 | Members are read as long as the value lasts; where it ends the others stay. |
| SchemaEvolution.ListRead | Rfx/StreamRule.h:51-82 | Elements are read one by one, each as its own version says. |
| SchemaEvolution.VariantReads | Rfx/StreamRule.h:123-142 | An alternative that the reader does not know becomes its first one with its initial value, and is skipped. |
| SchemaEvolution.OptionalReads | Rfx/StreamRule.h:170-191 | An optional value comes back present or absent as it was. |
| SchemaEvolution.MigrateSame | Rfx/Stream.h:112-138 | Without a change of version the value read is the value written, whatever was there before. |
| SchemaEvolution.SkipEmpty | Rfx/Stream.h:151-158 | A type can be read from a value that has ended, and then keeps what it had, if and only if it is a pair or a plain array of such types. |
| SchemaEvolution.ArrayLengths | Rfx/StreamRule.h:148-164 | A fixed-size array of any element type can be read with another length if and only if that is not larger or its elements can be skipped. |
| StreamCuts.CutNoticed | Rfx/Stream.h:112-158 | A value whose bytes end too early is an error wherever it is cut off, if and only if it does not end with a pair that no versioned value is around. |
| StreamCuts.CutFails | Rfx/Stream.h:112-158 | Read from less than all its bytes, a value is an error unless it ends with such a pair, and then all that was there is read. |
| StreamCuts.CutPasses | Rfx/Stream.h:112-158 | A value that ends with such a pair, and a place where cutting it off goes unnoticed. |
| StreamCuts.FixupMissing | Rfx/Stream.h:119-133 | Without one of its fixups no value is read, whatever bytes follow. |
| Streams.StreamOut.Write | Rfx/Stream.h:26-43 | The bytes and fixups of the value are appended. |
| Streams.StreamOut.WriteFramed | Rfx/Stream.h:31-38 | The fixup of a versioned value is the length of its body, and behind it stands the number of its fixups. |
| Streams.StreamOut.WriteBody | Rfx/StreamRule.h:25-190 | Each kind of type writes its parts in order. |
| Streams.StreamOut.WriteSize | Rfx/CompressedInteger.h:47-61 | A size is appended. |
| Streams.StreamOut.SwapBlob | Rfx/Stream.h:63-79 | The complete stream: the bytes, and the table of fixups backwards. |
| Streams.StreamBytes | Rfx/StreamRule.h:25-191 | A number, an optional one, a list and a variant in a struct, byte by byte with the table of fixups: what is present stands after a 1, lengths before elements, the index before the alternative. |
| Streams.StreamIn.Open | Rfx/Stream.h:102-110 | Reading starts at the first byte with the first fixup; a stream without a table is an error. |
| Streams.StreamIn.Read | Rfx/Stream.h:112-138 | The value, the errors and both cursors are those of the reading function on what is left. |
| Streams.StreamIn.ReadFramed | Rfx/Stream.h:119-133 | A versioned value ends where its fixup tells, and the fixups inside it are skipped. |
| Streams.StreamIn.ReadBody | Rfx/StreamRule.h:25-190 | Each kind of type reads its parts in order. |
| Streams.StreamIn.ReadSizeValue | Rfx/CompressedInteger.h:63-82 | A size is read, or the error reported. |
| Streams.StreamedOut | TestRfx/TestStreamRule.cpp:97-103 | A stream holds what was written into it. |
| Streams.StreamedIn | TestRfx/TestStreamRule.cpp:105-136 | Any values written with one version of their types and read with another become the migrated values. |
| Streams.StreamOver | TestRfx/TestStreamRule.cpp:116-122 | Any values written and read with the same types come back. |
| SharedLocks.SharedLock.TryLock | CompoundFs/SharedLock.h:77-86 | Succeeds if and only if nobody holds the lock. |
| SharedLocks.SharedLock.Unlock | CompoundFs/SharedLock.h:88-96 | The lock is free. |
| SharedLocks.SharedLock.TryLockShared | CompoundFs/SharedLock.h:109-119 | Succeeds if and only if nobody holds the lock alone. |
| SharedLocks.SharedLock.UnlockShared | CompoundFs/SharedLock.h:121-130 | One holder less; the others are notified if it was the last. |
| SharedLocks.CountsKept | CompoundFs/SharedLock.h:67-130 | The fields count the holders, through every step of every thread. |
| SharedLocks.ActMoves | CompoundFs/SharedLock.h:67-130 | What the fields decide is what the phases of the threads decide: nobody is kept out without need. |
| SharedLocks.RestKept | CompoundFs/SharedLock.h:67-130 | No thread sleeps while it could have the lock unless it is about to be woken: no wake-up is lost, although the count is read outside the mutex. |
| SharedLocks.ActKeeps | CompoundFs/SharedLock.h:67-130 | Both are kept by every step, and the assertions of the code hold. |
| SharedLocks.Exclusion | CompoundFs/SharedLock.h:67-130 | A thread that holds the lock alone is alone. |
| SharedLocks.RunValid | CompoundFs/SharedLock.h:67-130 | All this in every run of any number of threads. |
| Locks.Lock.Release | CompoundFs/Lock.h:112-118 | The mutex is released once; a lock given back or moved away releases nothing. |
| Locks.Lock.Move | CompoundFs/Lock.h:75-81 | The new lock holds what the other held, and the other nothing. |
| Locks.Lock.Assign | CompoundFs/Lock.h:95-103 | The lock held before is given back and the other one taken over; a lock assigned to itself is none afterwards. |
| Locks.Lock.Swap | CompoundFs/Lock.h:105-110 | The locks change places and no mutex is touched. |
| Locks.CommitLock.constructor | CompoundFs/Lock.h:56-59 | Both locks are taken over. |
| Locks.CommitLock.Release | CompoundFs/Lock.h:61-65 | The shared lock is released, the writer lock goes back to the caller. |
| Locks.LockProtocol.TryReadAccess | CompoundFs/LockProtocol.h:54-65 | A read lock if and only if neither the gate nor the shared lock is held alone; the gate is as it was. |
| Locks.LockProtocol.TryWriteAccess | CompoundFs/LockProtocol.h:74-81 | A write lock if and only if there is no writer. |
| Locks.LockProtocol.TryCommitAccess | CompoundFs/LockProtocol.h:96-110 | A commit lock if and only if the lock given is the writer lock and gate and shared lock are free; otherwise the writer lock comes back, or the call is refused. |
| LockProtocols.ActKeeps | CompoundFs/LockProtocol.h:47-110 | The locks are held by exactly the processes whose phase says so, through every step of every process. |
| LockProtocols.ActByPhases | CompoundFs/LockProtocol.h:47-110 | A process can go on if and only if the phases of the others allow it, and where it gets is what they say: readers keep readers out never, writers only writers. |
| LockProtocols.ReadsAtOnce | CompoundFs/LockProtocol.h:47-66 | Where nobody commits nor holds the gate to commit, whoever reads or writes, a process that asks to read has its read lock after its own steps, waiting or not. |
| LockProtocols.AllAtOnce | TestDriver/TestLockProtocol.cpp:26-60 | For every number n there is a run after which n processes read and one writes at the same time. |
| LockProtocols.ReadTried | CompoundFs/LockProtocol.h:55-66 | The form that does not wait takes the steps of the machine in one go, and is turned away if and only if some process commits or holds the gate to commit. |
| LockProtocols.WriteTried | CompoundFs/LockProtocol.h:75-82 | The same for a writer, turned away if and only if there is one. |
| LockProtocols.CommitTried | CompoundFs/LockProtocol.h:96-110 | The same for a commit, given if and only if nobody reads or is about to; otherwise the process writes on. |
| LockProtocols.Safe | FileLockingProtocol.md:17-30 | At most one writer; a commit lock belongs to it and excludes all read locks. |
| LockProtocols.RunSafe | FileLockingProtocol.md:17-30 | The same in every interleaving of any number of processes. |
| LockProtocols.GateHolds | FileLockingProtocol.md:55-81 | While a committer holds the gate no step gives anyone a new read lock. |
| LockProtocols.NotOvertaken | FileLockingProtocol.md:55-81 | Over any run in which a committer holds the gate, only processes that had a read lock have one. |
| LockProtocols.Closer | CompoundFs/LockProtocol.h:47-110 | Every step of going on or giving back brings the end closer. |
| LockProtocols.SomeoneCan | CompoundFs/LockProtocol.h:47-110 | As long as any process waits or holds something, some process can take such a step. |
| LockProtocols.NoneStuck | CompoundFs/LockProtocol.h:47-110 | If holders release and nobody asks for more, every run ends, and it ends exactly when every process has had its turn. |
| TempFileBuffers.FirstEntry | CompoundFs/FileSystemVisitor.cpp:169-205 | With at least 512 bytes or everything that is left in the buffer, the next record is completely in it. |
| TempFileBuffers.TempFileBuffer.Write | CompoundFs/FileSystemVisitor.cpp:152-161 | The file grows by the record. |
| TempFileBuffers.TempFileBuffer.Rewind | CompoundFs/FileSystemVisitor.cpp:162-167 | A second start leaves to read what the file holds from the position in the buffer on, which is the whole file if and only if that position is zero. |
| TempFileBuffers.TempFileBuffer.StartReading | CompoundFs/FileSystemVisitor.cpp:162-167 | From whatever position the buffer is at, the first record comes from exactly this position of the file; what is not in the buffer by then, from what the memory held before. |
| TempFileBuffers.TempFileBuffer.Read | CompoundFs/FileSystemVisitor.cpp:169-205 | The next record of the file, or nothing if and only if there is none left; from any other position, what the bytes there say. |
| TempFileBuffers.TempFileBuffer.Reload | CompoundFs/FileSystemVisitor.cpp:193-205 | After refilling the buffer holds a whole record or everything that is left. |
| TempFileBuffers.ReadBack | CompoundFs/FileSystemVisitor.cpp:152-205 | For any records and any buffer of at least 512 bytes: the records read are the records written. |
| TempFileBuffers.ReadTwice | CompoundFs/FileSystemVisitor.cpp:162-167 | Any records whose file is smaller than the buffer: read a second time, none of them is found. |
| TempFileBuffers.ReadMidway | CompoundFs/FileSystemVisitor.cpp:162-167 | A file not smaller than the buffer: reading started a second time begins in the middle of a record and finds one that nobody wrote. |
| TempFileBuffers.ReadEqual | CompoundFs/FileSystemVisitor.cpp:162-167 | Started a second time, reading may find a record equal to the first one and yet leave less of the file than the first time. |

## Left out

- CommitProtocol.CommitAtomic: speaks of committed pages outside the ids of new pages and those a previous commit without dirty pages did not flush, because free pages are overwritten at once.
- CommitProtocol.PublishedIsView: leaves out the places that pages were diverted to; nobody refers to them after the commit, and what the cache held for them is dropped.
- CacheManagement.CacheManager.Trim: leaves out the priority of pages, which is zero wherever the original sets it; which of two pages of the same class and use goes first is left open, as it is in the original.
- CacheManagement.CacheManager.AllocateFor: does not model that the allocator can itself load and evict pages; it hands out unused pages without touching the cache.
- CacheManagement.CacheManager.AsNewPage: requires that nobody uses the page, as the original asks of its callers; for a page that is cached it would return memory that the cache does not know.
- CacheManagement.CacheManager.Repurpose: is for pages that have a checksum where they are stored, as pages written through the cache have; a commit could not copy others.
- BTrees.BTree.Remove: when there is no room it says nothing about the tree, where the original fails an assertion.
- BTrees.BTree.UnlinkLeaf: is for links that lead to leaf pages, in use or freed; what else becomes of a freed page that a stale link still leads to, once a commit has handed it to the free store, is left out.
- BTrees.BTree.VisitAll: requires that the chain of leaves is right, which it is in every run of insertions.
- LeafPages.Leaf.Insert: is for keys the page does not have; the tree never inserts others.
- InnerPages.InnerNode.Insert: is for keys the page does not have; the tree never inserts others.
- InnerPages.InnerNode.Redistributed: is for neighbours one of which has a single key and which cannot be merged; the tree never shares keys of others.
- LeafPages.Leaf.Fill: copies the entries slot by slot into a page that is cleared first; the bytes are those of the original, which sets the size of the table in advance.
- FreeStores.FreeStore.Close: states conservation as pages and not as a number of bytes, because the size the store keeps is an upper bound only.
- FreeStores.FreeStore.SplitFiles: keeps the order of the files with several tables; the partition of the standard library may change it.
- FileWriters.FileWriter.Write: writes the file's pages past the cache, as the original does, so what a crash leaves of a file in progress is not claimed.
- Intervals.IntervalSequence.Sort: sorts by insertion; the original uses the sort of the standard library and merges neighbours afterwards as here.
- Streams.StreamIn.Read: returns the value instead of changing it in place, and ends with an outcome of its own where the original fails an assertion.
- SchemaEvolution.ReadsBack: asks for streams of fewer than 2 to the power of 64 bytes, which every stream in memory is.
- Locks.LockProtocol.TryCommitAccess: models the forms that do not wait; the waiting forms are the interleaved steps of `LockProtocols`.
- File handles: page indices are natural numbers below the reserved one; the number of pages is not limited to 32 bits and file sizes are not to 64.
- The calls of the operating system, locking of byte ranges in files, flushing buffers, temporary names.
- The hash of a page: what it decides is part of the type of a page, and so is the index that a log page was made for, which its signature nearly tells (`LogPages.SignatureTells`).
- Containers that sort or merge what is inserted (sets, maps): the model has the sequence of elements that are inserted.
- `BTree::rename`, the directory structure, paths, folders and visitors, copying of files, tree values and commit blocks.
- Memory management: page buffers, blobs that grow, small buffers on the stack; the Python bindings.
- Reusing a stream after its blob was taken: its fixups are not cleared.

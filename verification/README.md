# MakhOS: file systems, descriptors, pipes and locks

A Dafny model of the parts of MakhOS that keep state in hard ways, with proofs of what they keep:

- the ext2 file system (`kernel/fs/ext2.c`): the indirect block map, the bitmap allocator with its mirrored counters,
  read, write and truncate, directory blocks, create and unlink, over every run of operations;
- the VFS (`kernel/fs/vfs.c`): path resolution, descriptor tables shared by fork, clone and dup, pipes, and getdents
  with the walk that `user/ls.c` makes over its records;
- the memory file system (`kernel/fs/tmpfs.c`) on explicit memory, and path canonicalisation (`kernel/fs/path.c`);
- the futex lock of `user/threadtest.c` over `kernel/futex.c`, for any number of threads;
- the shell's `run_pipeline` (`user/sh.c`) as calls on the descriptor tables, up to end of file in the next stage;
- two refinements: the clock's closed-form calendar against the loops of `date`, and the editor's grid of lines
  against one string with a cursor.

`dafny verify dfyconfig.toml` checks the whole project. Objects the source updates in place are classes (`Volume`,
`Kernel`, `Fs`, `Ring`, `Channel`, `Edit`, `OpenDir`, `Buckets`, the two called `Machine`), each method tied to a
function or relation on values, and the properties are lemmas about those. A section that runs with interrupts off is
one step. Memory and threads are parameters: which address the allocator hands out, which process runs next, how a
file is cut into reads.

## How the modules fit together

- ext2: `Bytes`, `Chunks`, `Bitmap`, `Allocator`, `BlockTree`, `BlockTrim`, `Files`, `Volume`; then `DirBlock`,
  `Directory`, `Namespace`, `Dotted`, `DirOps`, `NameOps`. `Volume.Valid` says that the inodes in use own every claimed
  block once, that bitmaps and both levels of counters agree, and that each inode is charged for what it reaches.
  `NameOps.Consistent` adds that directories are well formed and name inodes in use, no more often than they have links,
  and `NameOps.DotsRight` that "." and ".." lead where they should.
- VFS: `Vfs`, `Components`, `Resolve`, `Path`, `Getdents`, `Descriptors`, `Pipe`, `PipeProtocol`, `Pipeline`, `Plumbing`.
- tmpfs: `Tmpfs`, `TmpfsTree`, `TmpfsFile`, `TmpfsLeak`.
- `Futex` and `FutexMachine`, `Calendar`, and `Text`, `Document` and `Editor` stand alone.

## Findings

Properties the code does not have, each with the input that shows it and the exact condition under which it holds.

- `dir_add_entry` returns without writing the inode when it cannot get a block (`kernel/fs/ext2.c:651-652`), but pointer
  blocks taken on the way stay marked. With twelve full blocks and one free block the free one is marked and nothing
  leads to it (`DirOps.TwelveFull`); with a double-indirect block in place and a pointer block below it missing, it is
  linked in and left out of `i_blocks` (`DirOps.DoublyFull`). `DirOps.AddEntry` says when and how many: only if no
  block has room, block `nblocks` is in reach, and at least one but not enough blocks are free. Then they are lost if
  the inode had no root to hang them on, and otherwise stay linked in but missing from `i_blocks`. With four free blocks
  nothing is lost (`DirOps.FourCostNothing`), and over a run the losses are bounded by the creates that found fewer
  than five (`NameOps.LedgerBound`).
- Regular vnodes are never freed by `file_put` (`kernel/fs/vfs.c:279-287`): a file unlinked while open stays in memory
  after its last close (`TmpfsLeak.UnlinkedWhileOpen`, `Descriptors.OpenedAndClosed`). Over the history of every run, a
  vnode is in memory without a name exactly if its last name went while somebody had it open
  (`TmpfsLeak.NamelessIffLostOpen`, `TmpfsLeak.Run`, `Descriptors.Unreclaimed`). A directory moved into itself, below,
  stays too: it keeps a name, its own.
- `tmpfs_rename` does not look whether a directory is moved into itself or below (`kernel/fs/tmpfs.c:182-212`), which
  cuts a cycle off the tree: exactly then (`TmpfsTree.RenameAcyclic`, `TmpfsTree.RunAcyclic`,
  `TmpfsTree.MovedIntoItself`).
- `kernel/futex.c:6-8` calls bucket collisions harmless. They are not: a wake can go to a sleeper on another word, and
  threads with work to do can all be left asleep, exactly if another word that is waited on shares the bucket
  (`Futex.StuckIffShared`). The model follows the code.
- `run_pipeline` that cannot make its second pipe returns with the first pipe's read end still open in the shell
  (`user/sh.c:197`), so that pipe never runs out of readers: exactly if two descriptors were free and three are needed
  (`Plumbing.FailedHoldsOn`).
- The comment above ext2's write path says it is scoped to block group 0; the code goes through all groups, and so
  does the model.

Not a failing of the code as it is called: `tmpfs_create` and `tmpfs_rename` look for the whole name but store 63
characters of it, so a direct caller could make a longer name twice (`Tmpfs.LongNameTwice`). The VFS cuts every leaf to
63 characters first (`Resolve.LeafFits`), so names stay distinct over every run (`Tmpfs.Fs.Run`).

## Model

| member | source | states |
|---|---|---|
| `Bytes.LittleEndian` | kernel/fs/ext2.c:37-44 | Fields of two and four bytes have their lowest byte first, read and written. |
| `Chunks.GroupCount` | kernel/fs/ext2.c:348-351 | The ceiling division is the number of groups needed for that many items. |
| `Chunks.Position` | kernel/fs/ext2.c:441-450 | The number made from a group and a bit gives that group and bit back, so freeing finds the bit allocating set. |
| `Bitmap.FirstClear` | kernel/fs/ext2.c:330-345 | The first clear bit below the limit, or none is clear. |
| `Allocator.TakeExact` | kernel/fs/ext2.c:370-410 | Taking a clear bit keeps every group counter and the superblock counter equal to the clear bits; no decrement sticks at zero. |
| `Allocator.GiveExact` | kernel/fs/ext2.c:431-460 | Releasing a marked bit keeps them equal too; no increment wraps. |
| `Volume.Volume.constructor` | kernel/fs/ext2.c:392-428 | For every geometry, a volume on which nothing is in use but block 0, where it has one, satisfies the allocator invariant and balances. |
| `Volume.Volume.AllocBlock` | kernel/fs/ext2.c:392-410 | A fresh zeroed block that nobody owned, or none exactly when the free counter is zero, and then every block is in use. |
| `Volume.Volume.FreeBlock` | kernel/fs/ext2.c:441-450 | Only an owned block is freed, and only that one; counters and bitmaps stay exact, the short last group included. |
| `Volume.Volume.AllocInode` | kernel/fs/ext2.c:413-428 | An inode number not in use, or none exactly when the counter is zero. |
| `Volume.Volume.SpanOf` | kernel/fs/ext2.c:129-136 | The number of file blocks under one pointer of a level. |
| `Files.MapBlockIsMap` | kernel/fs/ext2.c:138-170 | The block map read from the disk is the map of the tree of pointers, through all levels of indirection. |
| `Files.MapDistinct` | kernel/fs/ext2.c:159-170 | Two file blocks never share a disk block. |
| `Volume.Volume.AllocIndirect` | kernel/fs/ext2.c:531-558 | File block idx of the tree, a hole before, maps to the fresh block returned; every other file block maps as before; blocks outside the tree keep their contents; each block gained is charged; on failure the pointer blocks made stay owned and charged, exactly as many as were to be had. |
| `Volume.Volume.AllocFileBlock` | kernel/fs/ext2.c:563-577 | The same for the whole inode, over direct, single, double and triple indirect ranges. |
| `BlockTree.TrimAt` | kernel/fs/ext2.c:467-502 | The block map after a trim: kept below the start, holes from it on. |
| `BlockTree.TrimKeeps` | kernel/fs/ext2.c:467-502 | Which blocks a trim keeps: exactly those, data or pointer, whose span begins below the start. |
| `Volume.Volume.FreeIndirectFrom` | kernel/fs/ext2.c:467-502 | The tree becomes the trimmed tree; every block given up is freed once; nothing outside it changes. |
| `Volume.Volume.FreeFrom` | kernel/fs/ext2.c:507-524 | The inode keeps exactly what lies below the file block, and no other block is freed. |
| `Volume.Volume.Read` | kernel/fs/ext2.c:200-229 | The bytes of the file from the offset on, as many as asked or as the size leaves, holes reading as zero. |
| `Volume.Volume.Write` | kernel/fs/ext2.c:579-613 | The bytes change exactly on the range written, no other inode changes at all, the size follows a full write only, and a short write means no block was left; the books balance after it. |
| `Files.ReadBack` | kernel/fs/ext2.c:200-229 | What a full write put there a read of the same range gets back. |
| `Volume.Volume.Truncate` | kernel/fs/ext2.c:753-763 | All bytes below the length are kept, the map is cut after the block that holds the last of them, other inodes are untouched, and the books balance. |
| `Volume.Volume.Release` | kernel/fs/ext2.c:787-795 | All blocks of an inode and its number are given back, and nothing else. |
| `Volume.FieldAdds` | kernel/fs/ext2.c:533-539 | The 32-bit field of 512-byte units moves with the number of blocks, modulo its width. |
| `Volume.FblkIsCast` | kernel/fs/ext2.c:588-590 | The block index the model uses is the cast of the quotient, and the offset in the block the remainder. |
| `Volume.Geometry.SpbIs` | kernel/fs/ext2.c:533-539 | Units per block are the block size over 512. |
| `DirBlock.Align4Is` | kernel/fs/ext2.c:45 | The record size is rounded up to a multiple of four. |
| `DirBlock.OnDisk` | kernel/fs/ext2.c:640-642 | A record is the inode number, its length, the name's length, the type and the name, in this order and these widths. |
| `DirBlock.AddInBlock` | kernel/fs/ext2.c:625-648 | The entry goes into the first record with room, the others keep their order and the block stays an exact tiling; it fails exactly when no record has room, and then changes nothing. |
| `DirBlock.RemoveInBlock` | kernel/fs/ext2.c:671-693 | The first entry of the name goes, merged into the record before it or voided at the start; without it nothing changes. |
| `DirOps.Find` | kernel/fs/ext2.c:234-287 | The inode and type of the first entry with the name, or none if there is none. |
| `DirOps.Nth` | kernel/fs/ext2.c:234-293 | Entry number index of those shown, if there are that many. |
| `DirBlock.ShownIs` | kernel/fs/ext2.c:234-293 | An index counts every entry as often as it is there, but for names the VFS cannot hold; dir_is_empty counts those too. |
| `DirOps.AddEntry` | kernel/fs/ext2.c:617-662 | The names gain the entry, in order, exactly if a block has room or another can be had; otherwise they stay and the exact number of blocks lost or left uncounted is stated. |
| `DirOps.TwelveFull` | kernel/fs/ext2.c:651-652 | Twelve full blocks and one free block: a block is taken that nothing leads to. |
| `DirOps.DoublyFull` | kernel/fs/ext2.c:651-652 | The double-indirect range full up to a missing pointer block, and one free block: it is linked in and left out of i_blocks. |
| `DirOps.FourCostNothing` | kernel/fs/ext2.c:650-661 | With four free blocks a failing call loses nothing. |
| `DirOps.RemoveEntry` | kernel/fs/ext2.c:667-696 | The names lose the first entry of that name; none, and nothing changed, when there is none. |
| `DirOps.NewDir` | kernel/fs/ext2.c:709-748 | A new directory of one block and two links holds exactly "." for itself and ".." for its parent; it takes one inode and one block, or neither. |
| `Namespace.DotsExact` | kernel/fs/ext2.c:700-707 | For C strings the test of a name is exact for "." and "..". |
| `NameOps.WriteFile` | kernel/fs/ext2.c:579-613 | Writing a file changes no name and no other inode, and its bytes, size and result are those of the write; the volume stays consistent. |
| `NameOps.TruncateFile` | kernel/fs/ext2.c:753-763 | Truncating a file changes no name, keeps all bytes below the length, and the volume stays consistent. |
| `NameOps.CreateFile` | kernel/fs/ext2.c:709-751 | A new empty file with that one name, or none exactly when no inode is left or no room for the name, and then the inode taken stays in use without a name; every other inode is undisturbed; what it cost is stated. |
| `NameOps.MakeDir` | kernel/fs/ext2.c:709-751 | A new directory in which "." is found to be itself and ".." the directory that names it, with one name, two links and one more link of its parent; or none exactly when no inode, no block or no room is left; others undisturbed. |
| `NameOps.Unlink` | kernel/fs/ext2.c:765-799 | A missing name, or a directory that is not empty, and nothing else, is refused and changes nothing; otherwise the name goes, with a file its last link takes the inode and its blocks, link counts go down by one, nothing is lost and nothing left out of i_blocks, and nothing else changes. |
| `NameOps.VfsCreate` | kernel/fs/vfs.c:142-153 | A name that is there is not created again and nothing changes; otherwise it is made, always if an inode and five blocks are free and the directory can grow; then nothing is lost either, and with fewer blocks at most three are. |
| `NameOps.Step` | kernel/fs/ext2.c:579-799 | Any operation keeps the volume consistent, and only a create that finds fewer than five blocks free loses any or leaves any out of an i_blocks, at most three and of its directory only; "." and ".." stay right. |
| `NameOps.LedgerBound` | kernel/fs/ext2.c:579-799 | Over a run, at most three blocks are lost, and at most three left out of any i_blocks, for every create that found fewer than five free; without one, none. |
| `Dotted.DotsLead` | kernel/fs/ext2.c:725-726 | In a new directory "." is found to stand for it and ".." for its parent. |
| `Dotted.DottedAdd` | kernel/fs/ext2.c:617-662 | A name more keeps it so that in every directory "." is itself and ".." the one that names it, and every name has the type of what it names. |
| `Dotted.DottedRemove` | kernel/fs/ext2.c:667-696 | So does a name less. |
| `NameOps.MakeLeads` | kernel/fs/ext2.c:709-751 | A directory made, named or not, keeps it so. |
| `NameOps.UnlinkLeads` | kernel/fs/ext2.c:765-799 | An unlink keeps it so, of a file or of a directory, which goes. |
| `NameOps.Run` | kernel/fs/ext2.c:392-799 | Over every run: each claimed block has one owner and is marked, counters equal clear bits, directories tile and name inodes in use no more often than they have links, and the books of what was lost and left out follow the calls: without a create that found fewer than five blocks free nothing is lost and every i_blocks stays exact. If in every directory "." is itself and ".." the one that names it, and names have the types of what they name, it stays so. |
| `NameOps.Format` | kernel/fs/ext2.c:709-751 | A consistent volume exists for every geometry with room for it: a root directory and nothing else, its "." and ".." in order. |
| `Resolve.ResolveFrom` | kernel/fs/vfs.c:53-106 | The character cursor with recursion for links computes the walk over components, and ends on every graph, cyclic links included; what the walk is, the next rows say. |
| `Resolve.PathAfterPath` | kernel/fs/vfs.c:53-106 | Resolving a path after a path is resolving it from where the first leads. |
| `Resolve.EntryLeads` | kernel/fs/vfs.c:63-104 | "/" leads to the root, "." stays, a name leads to what it stands for or what is mounted on that; a missing name, or a name below what is no directory, leads nowhere. |
| `Resolve.LinkLeads` | kernel/fs/vfs.c:86-96 | The path of a link resolves to what its text does, from the root if it begins with a separator and from the directory that holds the link if not. |
| `Resolve.CrossMount` | kernel/fs/vfs.c:30-33 | The loop ends at what is on top of the mounts. |
| `Resolve.Resolved` | kernel/fs/vfs.c:109-126 | A following resolve never returns a link; resolving without following is a lookup of the leaf in the parent that resolve_parent gives, for leaves other than the empty one and ".". |
| `Resolve.DotLeaf` | kernel/fs/vfs.c:53-106 | For the leaf "." the two agree exactly if the directory has an entry of that name that leads to itself. |
| `Resolve.LeafIsLast` | kernel/fs/vfs.c:75-78 | The leaf resolve_parent gives is the last component. |
| `Resolve.LeafFits` | kernel/fs/vfs.c:63-78 | Whatever the path, the leaf a file system is given fits a name buffer. |
| `Resolve.SelfLoop` | kernel/fs/vfs.c:53-106 | A link that leads to itself is given up. |
| `Resolve.DepthMonotone` | kernel/fs/vfs.c:53-106 | What resolves with fewer links to spend resolves to the same with more. |
| `Path.Canonicalize` | kernel/fs/path.c:20-62 | On success the buffer holds the canonical path of directory and path, with its NUL inside the buffer; it is refused exactly when that does not fit; what it is, the next rows say. |
| `Path.DownAndUp` | kernel/fs/path.c:44-56 | From wherever a path leads a proper name goes one down, exactly if depth and buffer allow it, and ".." after it comes back. |
| `Path.Stays` | kernel/fs/path.c:44-48 | "." stays, and ".." stays at the root. |
| `Path.Relative` | kernel/fs/path.c:28-32 | A relative path is the path after the working directory; an absolute one is the same from anywhere. |
| `Path.FoldClean` | kernel/fs/path.c:20-62 | The result has no empty, "." or ".." component and fits with its NUL. |
| `Path.FixedPoint` | kernel/fs/path.c:20-62 | A canonical path that fits is given back from any working directory. |
| `Path.Idempotent` | kernel/fs/path.c:20-62 | Canonicalising twice is canonicalising once. |
| `Path.Rebased` | kernel/fs/path.c:20-62 | A relative path from a directory is the same path from the directory's canonical form. |
| `Path.Wider` | kernel/fs/path.c:20-62 | A larger buffer never changes the answer. |
| `Getdents.OpenDir.Getdents` | kernel/fs/vfs.c:375-411 | The records from the index on, as many as fit, with the offset moved past them and the rest of the buffer untouched; an error only if the first does not fit. |
| `Getdents.FitsMost` | kernel/fs/vfs.c:391-405 | As many records as fit: one more would not. |
| `Getdents.CallAll` | kernel/fs/vfs.c:375-411 | Any sequence of calls with any buffer sizes gives the first so many records, end to end, in order and each once; with buffers that each hold the next record, enough calls give all of them and the next call nothing. |
| `Getdents.Aligned` | kernel/fs/vfs.c:392-404 | Every record of a call begins at a multiple of 8. |
| `Getdents.RecordRead` | kernel/fs/vfs.c:392-404 | A record gives back its length, its type and, up to the NUL, its name. |
| `Getdents.RecordIndex` | kernel/fs/vfs.c:392-404 | Inode number and offset of a record are the index after it. |
| `Getdents.Walk` | user/ls.c:66-81 | The d_reclen walk recovers the names of the records, in order. |
| `Getdents.ListDir` | user/ls.c:61-84 | ls prints the names of the entries, in index order, each once. |
| `Getdents.PrintedIs` | user/ls.c:73 | With -a every name is printed as often as it is there; without, every one that does not begin with a dot, and no other. |
| `Descriptors.Kernel.Open` | kernel/fs/vfs.c:215-236 | A new description in the lowest free slot from 3 on, counted on its vnode, or EMFILE, exactly when no slot is free, and nothing changed. |
| `Descriptors.Kernel.Close` | kernel/fs/vfs.c:291-308 | The slot is emptied and its reference given up; an empty slot is an error beyond the console's three. |
| `Descriptors.Kernel.FilePut` | kernel/fs/vfs.c:273-288 | One reference less, the description freed with the last, its vnode told; no count saturates. |
| `Descriptors.Kernel.Dup2` | kernel/fs/vfs.c:572-582 | The new slot names what the old one does; what it named before is given up; bad numbers change nothing. |
| `Descriptors.Kernel.DupFd` | kernel/fs/vfs.c:413-434 | The lowest free slot from the bound on names the description too. |
| `Descriptors.Kernel.MakePipe` | kernel/fs/vfs.c:526-557 | Both ends in the two lowest free slots, one reader and one writer; or neither, exactly when fewer than two are free. |
| `Descriptors.Kernel.Fork` | kernel/fs/vfs.c:585-595 | The child names what the parent names, in a table of its own. |
| `Descriptors.Kernel.Share` | kernel/fs/vfs.c:599-614 | Parent and child have the same table under one count. |
| `Descriptors.Kernel.Exit` | kernel/fs/vfs.c:618-634 | The last process of a table closes every descriptor and frees it; an earlier one only leaves. |
| `Descriptors.Kernel.Step` | kernel/fs/vfs.c:215-634 | Any request keeps every count exact; a process names only what it or its parent named or what is new; processes that do not share its table keep theirs. |
| `Descriptors.Kernel.Run` | kernel/fs/vfs.c:215-634 | Over every run each description's count is the slots naming it, each shared count its sharers, each pipe's ends the live ends, and everything but regular vnodes is freed with its last reference and not before. |
| `Descriptors.InitialInv` | kernel/fs/vfs.c:193-206 | A kernel with one process and no descriptors satisfies the invariant. |
| `Descriptors.FreedIffUnnamed` | kernel/fs/vfs.c:273-288 | A description is freed exactly when no process names it. |
| `Descriptors.EndsCounted` | kernel/fs/vfs.c:515-524 | A pipe counts a reader while its read end is named, a writer while its write end is, and is freed when neither is. |
| `Descriptors.Unreclaimed` | kernel/fs/vfs.c:279-287 | Exactly which vnodes stay in memory though nothing refers to them: regular ones without a name, all descriptions closed. |
| `Descriptors.OpenedAndClosed` | kernel/fs/vfs.c:279-287 | A nameless file opened and closed is such a vnode. |
| `Pipe.Ring.Take` | kernel/fs/vfs.c:465-471 | The oldest bytes leave, at most as many as asked, and the rest stay in order. |
| `Pipe.Ring.Put` | kernel/fs/vfs.c:498-506 | As many bytes as there is room for enter behind those that are there. |
| `PipeProtocol.NoLostWakeup` | kernel/fs/vfs.c:450-524 | In every state of every interleaving the bytes accepted are those delivered followed by the ring; unless an end is being closed, a sleeping reader finds the pipe empty with a writer left and a sleeping writer finds it full with a reader left, so never both. |
| `PipeProtocol.EndOfFile` | kernel/fs/vfs.c:457-459 | A read of something that returns nothing means every byte accepted was delivered and none will follow. |
| `PipeProtocol.WriteCounts` | kernel/fs/vfs.c:480-511 | A write returns how many of its bytes went in: the first ones, in order. |
| `PipeProtocol.WriteEnds` | kernel/fs/vfs.c:480-511 | Over every run a write ends with fewer bytes than it was given only if a signal interrupts it or no reader is left, and with EPIPE exactly if then nothing has gone in; otherwise with all of them. |
| `PipeProtocol.WriteGoesOn` | kernel/fs/vfs.c:480-511 | Until then each turn puts in as much as there is room for, and it sleeps only when there is none. |
| `PipeProtocol.ReadEnds` | kernel/fs/vfs.c:450-478 | Over every run a read ends with as much as it asks for and the pipe holds, from the front, and with nothing only if it asked for nothing or no writer is left; or a signal interrupts it and it has taken nothing. |
| `PipeProtocol.Drained` | kernel/fs/vfs.c:456-478 | Without writers, readers get what is left in order, each read returns at once, and with nothing exactly when all has been read. |
| `PipeProtocol.Channel.Step` | kernel/fs/vfs.c:450-524 | The pipe with its ring buffer takes exactly the steps of the protocol, of which the rows above hold. |
| `PipeProtocol.Channel.Replay` | kernel/fs/vfs.c:443-448 | Over every run the head is tail plus count modulo 4096 and the buffer holds the protocol's bytes. |
| `Pipeline.StageKeeps` | user/sh.c:200-203 | Each dup2 and close of a stage takes it from what it holds to what it should hold next. |
| `Pipeline.PipeFails` | user/sh.c:197 | Making a pipe fails exactly when the shell has too few free descriptors. |
| `Plumbing.Machine.constructor` | user/sh.c:192-196 | run_pipeline starts from any kernel state and any descriptors of the shell. |
| `Plumbing.Machine.ShellStep` | user/sh.c:195-214 | The shell's next call on the kernel, and what it and every stage then hold. |
| `Plumbing.Machine.StageStep` | user/sh.c:200-203 | A stage's next call on the kernel. |
| `Plumbing.Machine.Ask` | kernel/fs/vfs.c:215-634 | Any request of a running stage's processes or of processes outside keeps the pipes apart. |
| `Plumbing.Machine.Run` | user/sh.c:192-218 | In every interleaving of shell, stages, kills, requests and pipe traffic all this holds, and each pipe's history is a run of the protocol with the kernel's counts. |
| `Plumbing.Holders` | user/sh.c:192-218 | At every moment the write end of pipe j is named only by stage j's processes and by the shell while it works on it; the read end only by the next stage, by stage j until it has closed it, and by the shell until it has passed it on. |
| `Plumbing.Wiring` | user/sh.c:192-218 | When the shell waits it holds what it began with, and a plumbed stage holds that with its input the pipe before and its output the pipe after; it gets there only with descriptors enough and fails only with too few. |
| `Plumbing.LastWriter` | kernel/fs/vfs.c:515-524 | Once the shell has passed stage j, its pipe has no writers exactly when no process of the stage names the write end. |
| `Plumbing.LastReader` | kernel/fs/vfs.c:515-524 | Once the shell waits and stage j is plumbed, its pipe has no readers exactly when no process of the next stage names the read end. |
| `Plumbing.Machine.RunOn` | user/sh.c:192-218 | When stage j is gone its reader drains what is in the ring, in order, and then gets end of file, whatever else happens. |
| `Plumbing.FailedHoldsOn` | user/sh.c:197 | A failed pipeline leaves the shell as it was exactly if fewer than two descriptors were free; otherwise it keeps the first pipe's read end. |
| `Tmpfs.Fs.Lookup` | kernel/fs/tmpfs.c:41-46 | The vnode the directory's map has for the name, none if it has none. |
| `Tmpfs.Fs.Link` | kernel/fs/tmpfs.c:49-62 | A new entry at the front, with one more reference, or nothing if there is no memory. |
| `Tmpfs.Fs.Create` | kernel/fs/tmpfs.c:64-70 | A new vnode under a new name, exactly if the directory's map does not have it and there is memory; otherwise nothing changes. |
| `Tmpfs.Fs.Unlink` | kernel/fs/tmpfs.c:159-177 | The entry goes and is freed, and the vnode exactly if nothing else leads to it; each error has its condition on the directories as maps, and errors change nothing. |
| `Tmpfs.Fs.Rename` | kernel/fs/tmpfs.c:182-212 | It succeeds exactly if both are directories, the old name is there, and the new one is not, or is of the same vnode, or of anything but a directory with entries; each error has its condition. The entry moves, re-threaded in place; errors change nothing. |
| `Tmpfs.Fs.Run` | kernel/fs/tmpfs.c:26-212 | Over every run lists are chains without sharing, counts are names and open descriptions, nothing in memory points to freed memory, names in a directory stay distinct, and every call does to the names what its specification says. |
| `Tmpfs.NothingDangles` | kernel/fs/tmpfs.c:148-177 | What a name or a description leads to is in memory and counts it. |
| `Tmpfs.ZeroIffLost` | kernel/fs/tmpfs.c:148-177 | A count is zero exactly when nothing leads to the vnode, so unlink never frees one still named or open. |
| `Tmpfs.CreateMap` | kernel/fs/tmpfs.c:49-70 | Creating is inserting the name, cut to 63, in the directory's map, for a vnode of the kind asked for; a new directory is empty and all else as it was. |
| `Tmpfs.CreateUnique` | kernel/fs/tmpfs.c:49-70 | Names stay distinct exactly if the name fits or its cut form is new. |
| `Tmpfs.LongNameTwice` | kernel/fs/tmpfs.c:49-70 | What the function does for a caller that hands it a long name twice, which the VFS never does. |
| `Tmpfs.UnlinkedMap` | kernel/fs/tmpfs.c:159-177 | Unlinking deletes the name from its directory's map and changes no other; the vnode goes exactly if nothing leads to it. |
| `Tmpfs.RenameMap` | kernel/fs/tmpfs.c:182-212 | Renaming is a move on the maps. |
| `Tmpfs.RenameMemory` | kernel/fs/tmpfs.c:195-200 | It takes away no vnode but the one replaced, and that exactly if nothing leads to it. |
| `Tmpfs.RenameUnique` | kernel/fs/tmpfs.c:182-212 | Names are distinct after it exactly if the new name fits or its cut form is nobody else's. |
| `TmpfsTree.RenameAcyclic` | kernel/fs/tmpfs.c:182-212 | Renaming a directory keeps the graph free of cycles exactly if it is not moved into itself or below. |
| `TmpfsTree.MovedIntoItself` | kernel/fs/tmpfs.c:182-212 | The smallest such move; the directory is cut off from the root and held in memory by its own entry. |
| `TmpfsTree.DoesAcyclic` | kernel/fs/tmpfs.c:49-212 | Every call keeps the graph free of cycles exactly if it does not move a directory into itself or below. |
| `TmpfsTree.RunAcyclic` | kernel/fs/tmpfs.c:49-212 | A run is free of cycles all along exactly if no call of it makes such a move. |
| `TmpfsFile.File.Read` | kernel/fs/tmpfs.c:85-92 | The bytes from the offset on, at most as many as asked. |
| `TmpfsFile.File.Write` | kernel/fs/tmpfs.c:96-112 | The bytes of the file with the data at the offset and zeros in a gap, whatever the grown memory held; or no memory and nothing changed. |
| `TmpfsFile.File.Truncate` | kernel/fs/tmpfs.c:114-118 | The file cut to a length it has. |
| `TmpfsFile.ReadBack` | kernel/fs/tmpfs.c:85-112 | What is written is read at the same place. |
| `TmpfsFile.TwoWrites` | kernel/fs/tmpfs.c:96-112 | Writing in two parts is writing once. |
| `TmpfsFile.CutThenWritten` | kernel/fs/tmpfs.c:96-118 | A file cut and written past the cut reads zeros between. |
| `TmpfsLeak.DoesFair` | kernel/fs/tmpfs.c:148-212 | In every call, rename included: a new vnode has a name, a nameless one stays, and one whose last name goes stays in memory exactly if it is open. |
| `TmpfsLeak.NamelessIffLostOpen` | kernel/fs/vfs.c:273-288 | Over the history of every run: a vnode is in memory without a name exactly if at some call its last name went while it was open; one that was not open is freed in that call. |
| `TmpfsLeak.FreedUnlessOpen` | kernel/fs/tmpfs.c:148-177 | With its last name a vnode is freed, unless somebody has it open. |
| `TmpfsLeak.Run` | kernel/fs/vfs.c:273-288 | Any run of the file system, with its history: what is in memory though nothing leads to it is exactly what lost its last name while open and is closed by now. |
| `TmpfsLeak.UnlinkedWhileOpen` | kernel/fs/vfs.c:273-288 | A file made, opened, unlinked and closed is still in memory. |
| `FutexMachine.Machine.Proceed` | user/threadtest.c:13-27 | A thread's step made with the kernel's calls on the wait queues is the protocol's step: futex_wait sleeps only on an unchanged word, futex_wake rouses the head of the bucket. |
| `FutexMachine.Machine.Play` | kernel/futex.c:41-71 | Threads, signals and other processes waiting on and waking other words, in any order on the real queues: mutual exclusion, no lost increment, and no threads all asleep with work left unless another waited word has the lock word's bucket. |
| `Futex.Buckets.FutexWake` | kernel/futex.c:62-71 | Up to n sleepers of the bucket, in the order they came, whatever word they wait on. |
| `Futex.Reached` | user/threadtest.c:13-27 | In every reachable state at most one thread is inside and no increment is lost; without a shared bucket a sleeper implies a holder or somebody about to wake or retry. |
| `Futex.EveryRunEnds` | user/threadtest.c:13-41 | Every run is bounded by the work and the signals, and one that cannot go on has every thread through and the counter at N times K. |
| `Futex.StuckIffShared` | kernel/futex.c:62-71 | Threads with work left can all be asleep exactly if another waited word shares the bucket. |
| `Calendar.ClosedForm` | kernel/drivers/rtc.c:25-32 | For every date from 1970 on the closed form is the day number. |
| `Calendar.EraSplit` | kernel/drivers/rtc.c:27-31 | The 400-year split is the sum of the leap year rules. |
| `Calendar.Date` | user/date.c:10-17 | The loops give the date and time of any number of seconds; a negative clock counts as zero. |
| `Calendar.RoundTrip` | user/date.c:10-17 | date gives back every date from 1970 on and every time of day that the clock was set to. |
| `Calendar.OneDate` | user/date.c:13-17 | No two dates have the same number. |
| `Calendar.IsPosix` | kernel/drivers/rtc.c:64-66 | The seconds are those of section 4.16 of POSIX.1-2017, Base Definitions. |
| `Calendar.ClockRead` | kernel/drivers/rtc.c:48-66 | In BCD or binary, 12 or 24 hours, the epoch is that of the time shown. |
| `Text.SaveLoad` | user/edit.c:46-73 | Saving what was loaded gives the file back exactly if it keeps within 1024 lines of at most 1023 characters. |
| `Text.LoadSave` | user/edit.c:46-73 | Loading what was saved gives the same lines back. |
| `Document.TypedAndTakenBack` | user/edit.c:142-145 | Backspace takes back a character that was accepted. |
| `Document.SplitAndJoined` | user/edit.c:131-156 | Backspace takes back a new line exactly if the line it split had fewer than 1023 characters. |
| `Document.TypedIn` | user/edit.c:170-176 | What is typed goes in at the cursor, in order, as long as the line has room. |
| `Document.TypedAndSaved` | user/edit.c:127 | Typed and followed by ^S it is in the file. |
| `Document.Arrows` | user/edit.c:157-169 | ESC [ A, B, C and D are up, down, right and left, over line ends, up and down to the same column or the end of a shorter line. |
| `Editor.Edit.Insert` | user/edit.c:170-176 | A character goes into the line at the cursor; in a full line nothing changes. |
| `Editor.Edit.Enter` | user/edit.c:131-141 | The line is split at the cursor; with too many lines nothing changes. |
| `Editor.Edit.Backspace` | user/edit.c:142-156 | The character before the cursor goes, a newline included; a join too long changes nothing. |
| `Editor.Edit.DeleteKey` | user/edit.c:165-166 | The character at the cursor goes; at the end of a line nothing does. |
| `Editor.Edit.Left` | user/edit.c:164 | One back in the text, over ends of lines. |
| `Editor.Edit.Right` | user/edit.c:163 | One on in the text, over ends of lines. |
| `Editor.Edit.Up` | user/edit.c:161 | The same column of the line above, or its end. |
| `Editor.Edit.Down` | user/edit.c:162 | The same column of the line below, or its end. |
| `Editor.Edit.ScrollFix` | user/edit.c:103-107 | The cursor's line is on the screen. |
| `Editor.Edit.Press` | user/edit.c:122-176 | One key: text, cursor and file become what the key makes of one string with an offset. |
| `Editor.Edit.Session` | user/edit.c:122-177 | Any input: the grid holds the text that the keys, folded over one string, make of it, the cursor is there and on the screen. |
| `Editor.Edit.Load` | user/edit.c:46-61 | However the file is cut into reads, the grid holds its lines, within the limits. |
| `Editor.Edit.Save` | user/edit.c:63-73 | The file becomes the lines with a newline after each but the last. |
| `Editor.EditFile` | user/edit.c:109-181 | Load, any input, and save: what is on disk is what the keys make of the text begun with, which is the file itself exactly if it keeps within the limits. |

## Left out

- ext2 images are typed: bitmaps, group descriptors and the inode table are sequences, not bytes inside blocks; directory and pointer blocks are bytes. The branch for a group without a bitmap block is not modelled.
- `i_blocks` is kept as a number of blocks; `Volume.FieldAdds` relates it to the 32-bit count of 512-byte units.
- Device errors, scratch pages and heap exhaustion inside ext2; malformed images; `ext2_rename`, `ext2_unmount` and the garbage list.
- One in-memory copy of an inode at a time: each operation loads, acts and stores, as each lookup makes a fresh copy.
- DirOps.AddEntry: takes directories below 4 GiB less a block, where the size field would wrap; so do NameOps.CreateFile and NameOps.MakeDir.
- NameOps.WriteFile: files only, not raw writes through a directory's vnode, which would overwrite its records; NameOps.TruncateFile likewise.
- Volume.Volume.Write: bytes are stated up to the reach of the 32-bit block index, beyond which the index wraps.
- Volume.Volume.Truncate: bytes past the new size in the last block kept are not promised to be zero; the code keeps them.
- NameOps.Run: a create that finds no room for the name leaves the new inode in use without a name, as the code does; the run keeps consistency, not the absence of such inodes.
- Resolve.ResolveFrom: the graph of mounts has a rank, so that following mounts ends; `cross_mount` itself would loop on a cycle of mounts. Symbolic links may be cyclic.
- Descriptors.Kernel.Run: allocation failures of tables and descriptions, and sockets as vnodes, are not modelled.
- PipeProtocol.WriteCounts: a caller blocked in a pipe keeps its own end open; the code takes no reference for it.
- Plumbing.Machine.Run: a failed fork and the shell being killed are not steps; the shell's table is its own, as nothing it does shares it; redirections are requests of the running stage.
- Futex.EveryRunEnds: the join through `tid_word`, timeouts and bad addresses are not modelled; the number of threads and iterations is arbitrary.
- tmpfs: symbolic links, `readlink`, `readdir`, growing by truncate, and the wrap-around of the capacity doubling; objects are addresses in maps rather than heap objects.
- TmpfsFile.File.Truncate: to a length the file has; the code also takes a longer one and leaves the size beyond the buffer.
- TmpfsLeak.Run: open and close are calls on a vnode, without the descriptor tables behind them.
- Getdents.CallAll: the directory does not change between calls; names longer than 63 bytes are not listed, as `readdir` hides them.
- Editor.Edit.Session: drawing is not modelled, only that the cursor's line is on the screen; Editor.EditFile assumes that writes are complete.
- Calendar.ClockRead: reading the chip until two reads agree is not modelled, nor the formatting of `date`'s output.
- Scheduler, signals beyond interrupting a sleeper, paging, networking, drivers and the other user programs.

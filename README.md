# beo core in Dafny

A model of the core of **beo**, a small C++ library for distributed data. Named data sets are
split into chunks, each chunk is described by its offsets and lengths, and data moves between
tasks through `send_recv`. The model covers these parts of the library:

- **Lowest layer (`src/L0`)**
  - `Chunk_Tag`: the offsets and lengths of one chunk, compared by offsets only.
  - `Chunk_Tag_Hash` and `Chunk_Hash`: the XOR hash of an offsets vector.
  - `Chunk`: a tag plus an owned buffer, with `allocate`, `aligned_allocate`, `free`, deep copy
    and move.
  - The address helpers `can_alias`, `memmove` and `calc_alignment`.
  - The point-to-point operations `barrier`, `send_recv` and `async_send_recv`.
- **`Data_Tag` (`src/L1`)**: a named shape and the unordered map from offsets to chunk tags.
- **Registries (`src/Enviroment`)**
  - `Data_Tag_Manager`: Data_Tags by name.
  - `Files`: shared files by name. `Shared_File` is reduced to its name, its `is_open_` flag, and
    whether its handle is held.
- **The `src/Data` revision**
  - A `Chunk` with a status flag, and offsets, lengths and strides.
  - `Data`, holding a `std::vector` of such chunks. The vector's capacity is part of the state,
    because it decides when the vector relocates its elements.
  - `Data_Manager`.
- **`smem_nodes`**
  - `Chunk<T>` and `Data<T>`.
  - The `shared_data` metadata record.
  - The `shared_memory_server` registry.

### How the C++ is modelled

- **Values.** Entities stored by value inside a container are Dafny datatypes: chunk tags, the
  `src/Data` chunks, `Chunk<T>` and `shared_data`. Their constructors, assignments and setters
  are functions that return the new value.
- **Classes.** Containers whose methods update their fields in place are classes, and their
  maps and vectors are `map` and `seq` fields. A registry holds its entries as objects, because
  `get` hands out references. Its invariant says that every entry is stored under its own name,
  so distinct keys hold distinct objects.
- **Mutexes.** Every recursive mutex is a hold count. `lock()` adds one, and `unlock()` requires
  a positive count and subtracts one.
- **size_t.** `size_t` arithmetic is arithmetic modulo 2^64 (`Common.SIZE_MOD`).
- **Process exit.** A lookup that ends the process with `exit(1)` returns `Terminated`.
- **Calls that never return.** `beo::memmove` as written calls itself forever when the two
  ranges can alias and differ. `Ops.SendRecv` then returns `Hangs`, and `Chunks.Chunk.CopyOf`
  reports `returned == false`.
- **Parameters for the outside world.** The allocator's answer, the outcome of an MPI or stdio
  call, and `std::hash<size_t>` are all parameters.

## Model

| member | source | states |
|---|---|---|
| Common.ComputeSize | src/L0/chunk_tag.hpp:118-123 | `sz *= len` over the lengths from 1 yields the product of the lengths modulo 2^64: 1 for no lengths, and the exact product when it fits |
| Common.InsertIfAbsent | src/Enviroment/data_tag_manager.hpp:115-127 | insert/emplace adds the key with the new value only when the key is absent; an existing entry is kept, the size grows by one exactly when the key was new |
| Common.Erase | src/Enviroment/data_tag_manager.hpp:137-142 | erase removes exactly the key; every other entry is unchanged, and the size drops by one exactly when the key was present |
| Common.InsertEraseRoundTrip | src/Enviroment/data_tag_manager.hpp:115-142 | adding an absent key then erasing it restores the map; erasing a present key and re-adding its entry restores it; a repeated add is idempotent |
| Utility.CanAlias | src/L0/utility.hpp:36-47 | when no range end wraps, the answer is true exactly when the closed ranges [a, a+al] and [b, b+bl] meet; buffers that merely touch count as aliasing |
| Utility.CanAliasSymmetric | src/L0/utility.hpp:36-47 | swapping the two buffers does not change the answer |
| Utility.Memmove | src/L0/utility.hpp:55-76 | returns BEO_SUCCESS; the destination range holds the old source bytes, every byte outside it is unchanged, and dest == src changes nothing |
| Utility.MemmoveAsWritten | src/L0/utility.hpp:55-76 | the as-written call returns (with BEO_SUCCESS) exactly when dest == src or the buffers cannot alias; otherwise it recurses into itself |
| Utility.MemmoveOnMemory | src/L0/utility.hpp:55-76 | as written, on memory: the call returns exactly when dest == src or the ranges cannot alias, agreeing with MemmoveAsWritten for every fuel; when it returns, the destination holds the old source bytes and nothing else changed; when it does not, nothing was written |
| Utility.EmptyMemmoveReturns | src/L0/utility.hpp:55-76 | a copy of zero bytes always returns BEO_SUCCESS, whatever the two addresses |
| Utility.AdjacentBuffersNeverReturn | src/L0/utility.hpp:64-72 | a destination that starts where the source ends takes the self-recursive branch, so the call never returns for any recursion depth |
| Utility.AlignmentOf | src/L0/utility.hpp:82-93 | the reported alignment is a power of two between 1 and 2048 that divides the address, and twice it does not divide the address unless 2048 was reached |
| Utility.CalcAlignment | src/L0/utility.hpp:82-93 | the doubling loop over m = 2, 4, ..., 2048 returns exactly AlignmentOf(address) |
| Utility.AlignmentOfMultipleOf2048 | src/L0/utility.hpp:86-92 | every multiple of 2048 (nullptr included) reports the cap 2048 |
| OffsetHash.Hash | src/L0/chunk_tag_hash.hpp:21-29 | the loop XORs each offset's hash into a zero seed: the result is the left fold HashFold, and 0 for no offsets |
| OffsetHash.FoldPermutation | src/L0/chunk_tag_hash.hpp:24-27 | for an operation whose operands can be applied in either order, the fold depends only on the multiset of offsets |
| OffsetHash.HashPermutationInvariant | src/L0/chunk_tag_hash.hpp:21-29 | two offset vectors with the same elements, counted with multiplicity, hash alike |
| OffsetHash.HashPairCancels | src/Data/chunk_hash.hpp:21-29 | appending a repeated pair of offsets leaves the Chunk_Hash value unchanged |
| OffsetHash.DistinctKeysCollide | src/Data/chunk_hash.hpp:21-29 | the distinct keys [x, x] and [] both hash to 0 |
| ChunkTags.Empty | src/L0/chunk_tag.hpp:146-151 | the empty constructor gives no offsets, no lengths and a free mutex |
| ChunkTags.Make | src/L0/chunk_tag.hpp:154-173 | both (offsets, lengths) constructors store exactly those vectors, with ndim = the number of lengths |
| ChunkTags.Copy | src/L0/chunk_tag.hpp:176-185 | the copy compares equal to its source, has its lengths and a fresh mutex |
| ChunkTags.Move | src/L0/chunk_tag.hpp:188-196 | the new tag takes both vectors; the source is left with empty vectors and its own mutex |
| ChunkTags.CopyAssign | src/L0/chunk_tag.hpp:199-210 | self takes other's vectors and keeps its own mutex |
| ChunkTags.MoveAssign | src/L0/chunk_tag.hpp:213-223 | self takes other's vectors and keeps its own mutex; other is left with empty vectors |
| ChunkTags.CopyAssignSelf | src/L0/chunk_tag.hpp:199-204 | self-assignment changes nothing |
| ChunkTags.CopiesAgree | src/L0/chunk_tag.hpp:176-210 | copies and copy-assigned tags compare equal to their source and have its size |
| ChunkTags.Lock | src/L0/chunk_tag.hpp:89 | lock() takes the mutex once more and changes nothing else |
| ChunkTags.Unlock | src/L0/chunk_tag.hpp:91 | unlock() of a held mutex releases it once and changes nothing else |
| ChunkTags.Offset | src/L0/chunk_tag.hpp:110 | offset(i) is the i-th offset, for an index in range |
| ChunkTags.Length | src/L0/chunk_tag.hpp:116 | length(i) is the i-th length, for an index in range |
| ChunkTags.AccessorsReadBack | src/L0/chunk_tag.hpp:110-116 | offset(i) and length(i) read back the vectors given to the constructor, those of the tag copied or copy-assigned from, and are unaffected by lock() |
| ChunkTags.Equal | src/L0/chunk_tag.hpp:135-138 | two tags compare equal exactly when they have the same number of offsets and the same offset at every index; lengths play no part |
| ChunkTags.EqualIsOffsetEquivalence | src/L0/chunk_tag.hpp:135-138 | operator== is an equivalence that ignores lengths and mutex, and a tag made from a tag's offsets equals it |
| ChunkTags.Size | src/L0/chunk_tag.hpp:118-123 | size() is the product of the lengths modulo 2^64, 1 for no lengths |
| ChunkTags.SizeShape | src/L0/chunk_tag.hpp:118-123 | the size is 0 exactly when some length is 0, and splitting the lengths multiplies the sizes of the parts |
| Chunks.FreedAsWritten | src/L0/chunk.hpp:201-212 | with the guard as written std::free is called only for an unallocated chunk, and then with nullptr |
| Chunks.Freed | src/L0/chunk.hpp:201-212 | with the guard corrected std::free receives the buffer exactly when one is held |
| Chunks.FreeGuardInverted | src/L0/chunk.hpp:205 | an allocated buffer is never released as written but is released with the corrected guard |
| Chunks.Chunk.constructor | src/L0/chunk.hpp:240-247 | an empty tag, no buffer, and bytes and alignment 0 |
| Chunks.Chunk.IsAllocated | src/L0/chunk.hpp:142 | true exactly when the data pointer is not nullptr; a consistent unallocated chunk records no bytes and no alignment, an allocated one holds its recorded bytes |
| Chunks.Chunk.FromTag | src/L0/chunk.hpp:251-258 | the tag is copy-assigned into the empty tag, and no memory is set up |
| Chunks.Chunk.FromMovedTag | src/L0/chunk.hpp:295-301 | the tag's vectors move into a fresh chunk with no memory set up; the caller's tag comes back with empty vectors and its own mutex count |
| Chunks.Chunk.Allocate | src/L0/chunk.hpp:151-171 | an allocated chunk is refused unchanged with BEO_FAIL; otherwise malloc's block is recorded with its size and the alignment calc_alignment finds; a failed malloc gives BEO_FAIL |
| Chunks.Chunk.AlignedAllocate | src/L0/chunk.hpp:176-196 | as allocate, recording the requested alignment |
| Chunks.Chunk.Free | src/L0/chunk.hpp:201-212 | as written: BEO_SUCCESS, the chunk is left unallocated with bytes and alignment 0, and std::free receives what FreedAsWritten says |
| Chunks.Chunk.FreeReleasing | src/L0/chunk.hpp:201-212 | corrected: the same new state, and the held buffer is released |
| Chunks.Chunk.Destroy | src/L0/chunk.hpp:228-233 | as written: the destructor calls free() on an allocated chunk, which hands nothing to std::free, so the buffer is never released; the chunk is left unallocated |
| Chunks.Chunk.DestroyReleasing | src/L0/chunk.hpp:228-233 | corrected: the destructor with free()'s guard fixed releases exactly the buffer the chunk held |
| Chunks.Chunk.Size | src/L0/chunk.hpp:127-132 | size() is the product of the tag's lengths modulo 2^64 |
| Chunks.Chunk.Equal | src/L0/chunk.hpp:219-222 | two chunks compare equal exactly when their tags have the same offsets, index by index; buffers, sizes and lengths play no part |
| Chunks.Chunk.Lock | src/L0/chunk.hpp:87 | both mutexes are taken once more; the buffer is untouched |
| Chunks.Chunk.Unlock | src/L0/chunk.hpp:90 | both held mutexes are released once; the buffer is untouched |
| Chunks.Chunk.CopyOf | src/L0/chunk.hpp:263-279 | the copy's tag equals the source's; an allocated source gets a block of the same size and alignment; the as-written memmove returns exactly when the block cannot alias the source buffer (or is it), and only then holds the source's bytes; when aligned_alloc fails the copy stays unallocated |
| Chunks.Chunk.MoveOf | src/L0/chunk.hpp:282-291 | the tag's vectors move over, and pointer, size and alignment are copied, so both chunks name the same buffer |
| Chunks.Chunk.MoveAssign | src/L0/chunk.hpp:331-344 | self-assignment changes nothing; otherwise as the move constructor, keeping this chunk's own mutex |
| Chunks.Chunk.CopyAssign | src/L0/chunk.hpp:307-328 | self-assignment changes nothing; otherwise the tag is copied; for an allocated source the old buffer goes through free() and a new buffer is taken, with bytes and alignment left at 0, so the memmove of zero bytes returns |
| DataTags.LockedTags | src/L1/data_tag.hpp:192-197 | the map after lock(): the same keys, each tag locked once more |
| DataTags.UnlockedTags | src/L1/data_tag.hpp:199-204 | the map after unlock(): the same keys, each held tag released once |
| DataTags.CopiedTags | src/L1/data_tag.hpp:274-287 | a copied map has the same keys and each tag's vectors, with fresh mutexes |
| DataTags.ReleasedOnce | src/L1/data_tag.hpp:263-272 | a map moved in after lock() has each count dropped by one by the closing unlock() |
| DataTags.LockUnlockRoundTrip | src/L1/data_tag.hpp:192-204 | after lock() every tag is held; unlock after lock restores the map, and so does lock after unlock |
| DataTags.CopiedTagsAgree | src/L1/data_tag.hpp:274-287 | a copied map stays keyed by offsets, and its tags compare equal to and hash like the originals |
| DataTags.DataTag.constructor | src/L1/data_tag.hpp:221-222 | no name, no lengths, no tags |
| DataTags.DataTag.Named | src/L1/data_tag.hpp:224-250 | the name is set and there are no tags or lengths |
| DataTags.DataTag.FromMap | src/L1/data_tag.hpp:252-261 | the map is copied, and stays keyed by offsets |
| DataTags.DataTag.FromMovedMap | src/L1/data_tag.hpp:263-272 | the map is moved in, and unlock() releases every tag once |
| DataTags.DataTag.CopyOf | src/L1/data_tag.hpp:274-287 | name, lengths and a copy of the map, with the same number of tags |
| DataTags.DataTag.MoveOf | src/L1/data_tag.hpp:289-300 | name, lengths and map move over; the source is left empty |
| DataTags.DataTag.CopyAssign | src/L1/data_tag.hpp:302-322 | self-assignment changes nothing; otherwise as the copy constructor, keeping this mutex |
| DataTags.DataTag.MoveAssign | src/L1/data_tag.hpp:324-342 | self-assignment changes nothing; otherwise as the move constructor |
| DataTags.DataTag.AddChunkTag | src/L1/data_tag.hpp:360-375 | a copy of the tag goes in under its offsets when they are absent; the count grows by one exactly then; the key invariant is kept |
| DataTags.DataTag.AddChunkTagFromParts | src/L1/data_tag.hpp:377-381 | a tag built from the vectors goes in under the offsets when absent |
| DataTags.DataTag.AddChunkTagFromMovedParts | src/L1/data_tag.hpp:383-389 | the tag goes in under the moved-from offsets vector, so the key invariant is kept only when that vector still equals the offsets |
| DataTags.DataTag.RemoveChunkTag | src/L1/data_tag.hpp:151-156 | the entry for the offsets is gone, nothing else changes, and the key invariant is kept |
| DataTags.DataTag.GetChunkTag | src/L1/data_tag.hpp:162-185 | the stored tag when the offsets are present, whose own offsets are the key; otherwise the process ends |
| DataTags.DataTag.Lock | src/L1/data_tag.hpp:192-197 | the Data_Tag's mutex and every tag's mutex are taken once more |
| DataTags.DataTag.Unlock | src/L1/data_tag.hpp:199-204 | every held tag and the Data_Tag's own mutex are released once |
| DataTags.DataTag.Size | src/L1/data_tag.hpp:210-215 | size() is the product of the lengths modulo 2^64, 1 for none |
| DataTags.DataTag.NumChunkTags | src/L1/data_tag.hpp:104 | the number of chunk tags is the number of keys in the map, and 0 exactly when the map is empty |
| DataTagManagers.DataTagManager.constructor | src/Enviroment/data_tag_manager.hpp:80-81 | an empty registry |
| DataTagManagers.DataTagManager.Add | src/Enviroment/data_tag_manager.hpp:115-127 | a fresh copy is stored under its name and 0 is returned when the name is absent; otherwise 1 and no change; other entries untouched |
| DataTagManagers.DataTagManager.Remove | src/Enviroment/data_tag_manager.hpp:137-142 | the key is erased; 0 when it was present and 1 otherwise |
| DataTagManagers.DataTagManager.Get | src/Enviroment/data_tag_manager.hpp:152-170 | the Data_Tag stored under the key, whose name is the key; otherwise the process ends |
| DataTagManagers.DataTagManager.Lock | src/Enviroment/data_tag_manager.hpp:88-93 | the manager's mutex, every Data_Tag's and every chunk tag's are taken once more |
| DataTagManagers.DataTagManager.Unlock | src/Enviroment/data_tag_manager.hpp:100-105 | the same mutexes are released once |
| FileRegistry.SharedFile.Named | src/L0/shared_file.hpp:75 | only the name is set; the file is not open |
| FileRegistry.SharedFile.CopyOf | src/L0/shared_file.hpp:126-135 | the copy has the name and the handle, and is not marked open |
| FileRegistry.SharedFile.Open | src/L0/shared_file.hpp:609-650 | an open file is refused with BEO_FAIL; otherwise fopen's outcome sets both the handle and is_open_ and decides the status |
| FileRegistry.SharedFile.Close | src/L0/shared_file.hpp:656-685 | a file not marked open is left alone with BEO_SUCCESS; an open one loses its handle, stays marked open, and gets BEO_FAIL |
| FileRegistry.SharedFile.Lock | src/L0/shared_file.hpp:97 | the mutex is taken once more |
| FileRegistry.SharedFile.Unlock | src/L0/shared_file.hpp:99 | a held mutex is released once |
| FileRegistry.Files.constructor | src/Enviroment/files.hpp:70-71 | an empty registry |
| FileRegistry.Files.Add | src/Enviroment/files.hpp:106-111 | a fresh copy, not marked open, is stored under its name and 0 returned when absent; otherwise 1 and no change |
| FileRegistry.Files.Get | src/Enviroment/files.hpp:120-138 | the file stored under the key, whose name is the key; otherwise the process ends |
| FileRegistry.Files.Remove | src/Enviroment/files.hpp:149-158 | a missing key ends the process inside get; otherwise the file is closed (its handle released if it was open, its other fields unchanged) and erased, and 0 returned; every remaining file is unchanged |
| FileRegistry.Files.Lock | src/Enviroment/files.hpp:78-83 | the registry's mutex and every file's are taken once more |
| FileRegistry.Files.Unlock | src/Enviroment/files.hpp:90-95 | the same mutexes are released once |
| FileRegistry.Files.Finalize | src/Enviroment/files.hpp:167-177 | as written: close() runs on copies, so no stored file changes and an open file keeps its handle |
| FileRegistry.Files.FinalizeByReference | src/Enviroment/files.hpp:167-177 | corrected: every file marked open loses its handle, and the others are unchanged |
| DataChunks.Empty | src/Data/chunk.hpp:127-131 | status u and no geometry |
| DataChunks.Make | src/Data/chunk.hpp:134-155 | both (offsets, lengths, strides) constructors store exactly those vectors, with status u |
| DataChunks.Copy | src/Data/chunk.hpp:158-167 | the copy has the source's geometry, status f whatever the source's, and a fresh mutex |
| DataChunks.Move | src/Data/chunk.hpp:170-178 | the new chunk takes geometry and status; the source keeps its status with empty vectors |
| DataChunks.CopyAssign | src/Data/chunk.hpp:181-192 | self takes other's geometry and status and keeps its own mutex |
| DataChunks.MoveAssign | src/Data/chunk.hpp:195-205 | as copy assignment, and the source is left with empty vectors |
| DataChunks.SetStatus | src/Data/chunk.hpp:94 | only the status changes |
| DataChunks.AssignAndStatusLaws | src/Data/chunk.hpp:92-94 | self-assignment changes nothing; status() reads back set_status; the last set wins; setting the current status changes nothing |
| DataChunks.CopyDecidesStatus | src/Data/chunk.hpp:158-178 | a copy has status f in either order with a move, and a copy keeps the status exactly when it was f |
| DataChunks.Lock | src/Data/chunk.hpp:87 | the mutex is taken once more |
| DataChunks.Unlock | src/Data/chunk.hpp:89 | a held mutex is released once |
| DataChunks.Size | src/Data/chunk.hpp:111-116 | size() is the product of the lengths modulo 2^64 |
| DataChunks.ShapeOfCopies | src/Data/chunk.hpp:97-116 | a copy has the source's ndim and size; the size is 0 exactly when a length is 0 |
| DataSets.CopiedChunks | src/Data/data.hpp:234-247 | a copied vector: same geometry element by element, every status f, fresh mutexes |
| DataSets.Appended | src/Data/data.hpp:320-344 | push_back puts the chunk last; below capacity the earlier chunks are kept; at capacity they are copy-relocated (status f) and the capacity grows |
| DataSets.AppendedByMove | src/Data/data.hpp:320-328 | with move relocation the earlier chunks are never altered |
| DataSets.AppendRelocationResetsStatus | src/Data/data.hpp:320-328 | after two adds to an empty Data the first chunk's status u has become f; with move relocation it stays u |
| DataSets.AssignedChunks | src/Data/data.hpp:262-282 | vector copy assignment: same length and geometry as the source; a source beyond capacity is copied afresh, otherwise the existing elements are copy-assigned and the rest copy-constructed |
| DataSets.ReleasedOnce | src/Data/data.hpp:223-232 | a vector moved in after lock() has each count dropped by one by the closing unlock() |
| DataSets.LockedChunks | src/Data/data.hpp:148-158 | every chunk locked once more |
| DataSets.UnlockedChunks | src/Data/data.hpp:160-164 | every held chunk released once |
| DataSets.LockUnlockRoundTrip | src/Data/data.hpp:148-164 | after lock() every chunk is held; unlock after lock restores the vector, and so does lock after unlock |
| DataSets.Data.constructor | src/Data/data.hpp:181-182 | no name, lengths or chunks |
| DataSets.Data.Named | src/Data/data.hpp:184-194 | the name is set and there are no chunks |
| DataSets.Data.NamedReserved | src/Data/data.hpp:196-210 | the name is set, no chunks, capacity num |
| DataSets.Data.FromChunks | src/Data/data.hpp:212-221 | the vector is copied (statuses f) |
| DataSets.Data.FromMovedChunks | src/Data/data.hpp:223-232 | the vector is moved in and released once |
| DataSets.Data.CopyOf | src/Data/data.hpp:234-247 | name, lengths and a copied vector |
| DataSets.Data.MoveOf | src/Data/data.hpp:249-260 | everything moves over unchanged; the source is left empty |
| DataSets.Data.CopyAssign | src/Data/data.hpp:262-282 | self-assignment changes nothing; otherwise name, lengths and AssignedChunks |
| DataSets.Data.MoveAssign | src/Data/data.hpp:284-302 | self-assignment changes nothing; otherwise everything moves over and the source is left empty |
| DataSets.Data.Reserve | src/Data/data.hpp:346-349 | a request beyond the capacity copy-relocates the chunks into exactly num slots; otherwise nothing changes |
| DataSets.Data.AddChunk | src/Data/data.hpp:320-328 | the chunk count grows by one, the new last chunk has the argument's geometry and status f, and earlier chunks keep their geometry |
| DataSets.Data.AddChunkFromParts | src/Data/data.hpp:330-344 | a chunk made from the vectors with status u is appended |
| DataSets.Data.AddChunkKeepingEarlier | src/Data/data.hpp:320-328 | corrected: the copy is appended and the earlier chunks are untouched |
| DataSets.Data.Lock | src/Data/data.hpp:148-158 | the Data's mutex and every chunk's are taken once more |
| DataSets.Data.Unlock | src/Data/data.hpp:160-164 | every held chunk and the Data's own mutex are released once |
| DataSets.Data.Size | src/Data/data.hpp:170-175 | size() is the product of the lengths modulo 2^64 |
| DataManagers.DataManager.constructor | src/Data/data_manager.hpp:80-81 | an empty registry |
| DataManagers.DataManager.Add | src/Data/data_manager.hpp:112-124 | a fresh copy (chunk statuses f, capacity the number of chunks) is stored under its name and 0 returned when absent; otherwise 1 and no change |
| DataManagers.DataManager.Remove | src/Data/data_manager.hpp:133-138 | the key is erased; 0 when it was present and 1 otherwise |
| DataManagers.DataManager.Lock | src/Data/data_manager.hpp:88-93 | the manager's mutex, every Data's and every chunk's are taken once more |
| DataManagers.DataManager.Unlock | src/Data/data_manager.hpp:100-105 | the same mutexes are released once |
| Ops.SelectRole | src/L0/ops.hpp:94-143 | an id at or above num_tasks ends the process; otherwise the calling task copies locally, sends, receives or stands by, each under exactly its condition |
| Ops.NegativeIdsPass | src/L0/ops.hpp:94-104 | negative ids pass the id check |
| Ops.Barrier | src/L0/ops.hpp:61-72 | BEO_SUCCESS without MPI; with MPI, BEO_FAIL exactly when MPI_Barrier fails |
| Ops.SendRecv | src/L0/ops.hpp:84-152 | after the id check: without MPI, or when the task is both ends, the bytes are copied with beo::memmove as written, which never returns when dest != src and the ranges can alias; the sender's memory is unchanged; the receiver's destination holds the received bytes on success; a bystander changes nothing |
| Ops.OverlappingLocalCopyHangs | src/L0/ops.hpp:146-148 | without MPI, copying 8 bytes from address 0 to address 4 takes the local copy and never returns, for any number of nested calls |
| Ops.AsyncSendRecv | src/L0/ops.hpp:159-247 | the same id check; a launched local copy without MPI; with MPI a null request for a local copy or a bystander, a pending send or receive otherwise; a failed post ends the process |
| Ops.AsyncMatchesBlocking | src/L0/ops.hpp:159-235 | with MPI and successful posts, the asynchronous call ends the process, sends and receives exactly when the blocking one does |
| SharedDataInfo.NumChunksAsWritten | smem_nodes/shared_data.hpp:37 | the count as written never exceeds len |
| SharedDataInfo.NumChunks | smem_nodes/shared_data.hpp:37 | corrected: the least n with n chunks covering len elements |
| SharedDataInfo.AsWrittenVersusCeiling | smem_nodes/shared_data.hpp:37 | the count as written is never below the ceiling and equals it exactly when the remainder is 0 or 1 |
| SharedDataInfo.TenInChunksOfFour | smem_nodes/shared_data.hpp:37 | 10 elements in chunks of 4 are counted as 4 chunks where 3 suffice |
| SharedDataInfo.NewSharedDataAsWritten | smem_nodes/shared_data.hpp:32-45 | len and base_size as given, size and chunk_size as size_t products, and the as-written chunk count |
| SharedDataInfo.NewSharedData | smem_nodes/shared_data.hpp:32-45 | the same with the ceiling count |
| SharedDataInfo.ChunksCoverData | smem_nodes/shared_data.hpp:21-37 | without overflow, the chunks hold all of the data's bytes, and one chunk fewer would not |
| SharedMemoryServers.SharedMemoryServer.constructor | smem_nodes/shared_memory_server.hpp:28 | an empty map |
| SharedMemoryServers.SharedMemoryServer.AddSharedData | smem_nodes/shared_memory_server.hpp:32-34 | true exactly when the name was absent; then the data is stored under it; otherwise the first entry is kept; other names are unaffected |
| SharedMemoryServers.SecondAddKeepsFirst | smem_nodes/shared_memory_server.hpp:32-34 | a second registration under the same name keeps the first data |
| SmemChunks.Default | smem_nodes/chunk.hpp:72-77 | status u |
| SmemChunks.FromValue | smem_nodes/chunk.hpp:80-86 | the base is the value, status f |
| SmemChunks.CopyOf | smem_nodes/chunk.hpp:89-96 | the source's base, status f |
| SmemChunks.MoveOf | smem_nodes/chunk.hpp:108-115 | base and status move over; the source keeps its status |
| SmemChunks.AssignValue | smem_nodes/chunk.hpp:118-141 | assigning a value replaces the base and keeps the status |
| SmemChunks.Assign | smem_nodes/chunk.hpp:126-133 | copy-assigning a distinct chunk takes its base and status |
| SmemChunks.MoveAssign | smem_nodes/chunk.hpp:145-151 | move-assigning a distinct chunk takes its base and status; the source keeps its status and is left with a moved-from base |
| SmemChunks.MoveAssignLaws | smem_nodes/chunk.hpp:108-151 | move assignment leaves the target as copy assignment does and the source as the move constructor does |
| SmemChunks.SetStatus | smem_nodes/chunk.hpp:60 | only the status changes |
| SmemChunks.StatusLaws | smem_nodes/chunk.hpp:59-151 | status() reads back set_status; the last set wins; a move or an assignment keeps the status; a copy resets it to f |
| SmemData.ChunksOf | smem_nodes/data.hpp:96-108 | the chunks made by a series of add_chunk calls, in order, each with status f |
| SmemData.Data.constructor | smem_nodes/data.hpp:86-90 | the name is set, there are no chunks |
| SmemData.Data.AddChunk | smem_nodes/data.hpp:96-108 | the chunk holding a copy of the value with status f is appended; nothing earlier changes |
| SmemData.ChunksRecordAdds | smem_nodes/data.hpp:60-108 | num_chunks counts the adds, the i-th chunk holds the i-th added value with status f, and adds in two runs give the first run's chunks followed by the second's |

## Left out

- **MPI.**
  - The communicator is reduced to its task count and the caller's id.
  - The outcomes of MPI_Send, MPI_Recv, MPI_Isend, MPI_Irecv and MPI_Barrier are parameters.
  - The message `tag` argument of `send_recv` and `async_send_recv` plays no part in the model.
- **Requests.** `beo::Request` (`src/L0/request.hpp`) is reduced to what a request stands for;
  waiting on it and the thread that `std::async` starts are not modelled, so the hang of the
  memmove such a thread runs (as in `Ops.SendRecv`) is not visible in `Ops.AsyncSendRecv`.
- **`check_task_id`** is declared in `src/L0/ops.hpp` but never defined, so it has nothing to
  model.
- **Concurrency.** Mutexes are hold counts, and blocking and interleavings are not modelled.
  Unlocking a mutex that is not held is undefined behaviour in C++. Every constructor and copy
  assignment of Data_Tag and Data that copies or moves a container in between `lock()` and
  `unlock()` does this to the children it has just made, whose mutexes were never locked:
  `DataTags.DataTag.FromMap`, `DataTags.DataTag.FromMovedMap`, `DataTags.DataTag.CopyOf`,
  `DataTags.DataTag.CopyAssign`, `DataSets.Data.FromChunks`, `DataSets.Data.FromMovedChunks`,
  `DataSets.Data.CopyOf` and `DataSets.Data.CopyAssign` (the `Copy(other[i])` entries of
  `DataSets.AssignedChunks`). The model gives every such child a count of 0 (`DataTags.CopiedTags`,
  `DataSets.CopiedChunks`, `DataTags.ReleasedOnce`, `DataSets.ReleasedOnce`).
  The assignment operators also destroy children while they are still held. The move assignments
  `DataTags.DataTag.MoveAssign` and `DataSets.Data.MoveAssign` call `lock()` on the target and
  then replace its container, which destroys the old children with their recursive mutexes held
  by this thread. This is undefined behaviour too. The copy assignments do the same:
  `DataTags.DataTag.CopyAssign` whenever the map's old nodes are rebuilt, and
  `DataSets.Data.CopyAssign` for the elements `DataSets.AssignedChunks` discards. Those are the
  tail beyond `|other|` when `|other| < |self|`, and every old element when `|other|` exceeds the
  capacity. The model drops these children without stating anything about them.
- **Allocator.** The allocator and the contents of fresh memory are inputs (`Chunks.Allocation`).
- **Chunk deep copy.** `Chunks.Chunk.CopyOf` records that the new buffer receives the source's
  bytes, but not the addresses they sit at.
- **`Chunks.Chunk.FromTag`.** The source takes the same mutex twice, which is harmless for a
  recursive mutex and is not modelled.
- **Shared_File.**
  - Only the build without MPI is modelled for `open` and `close`.
  - The constructor from a name leaves `file_` uninitialised; the model says no handle is held.
  - The move constructor gives the same state as the copy constructor in this model, so it has
    no member of its own.
  - Reads, writes, seeks and the asynchronous file operations are outside the core.
  - The copy constructor shares the caller's `FILE*`. Aliasing of that handle between copies
    is not modelled: after `FileRegistry.Files.Remove` closes the stored copy, the caller's
    object still reports its handle, which in C++ now dangles.
- **Printing and strings.** The `print` functions, error messages and `sizestr` are not modelled.
- **Accessors.** Accessors that only return a field are covered by the fields themselves:
  `name`, `offsets`, `strides`, `stride(i)`, `data()`, `tag()`, `is_open`, `num_chunks`,
  `ndim`, and the iterators.
- **`shared_data`.** `chunk_len_` is never initialised by the constructor, so `chunk_len()`
  reads an indeterminate value; the model has no such field. A chunk length of 0 divides by
  zero in the constructor; the model requires a positive chunk length.
- **`shared_memory_server`.** The list of nodes and `print` are not modelled.
  `smem_nodes/shared_memory_node.hpp` is not part of this model.
- **`Data_Tag::reserve`** only changes the hash map's bucket count, which nothing observes, so
  the `(name, num)` constructors are modelled as the `(name)` ones. `Data::reserve` is modelled
  (`DataSets.Data.Reserve`).
- **`Data_Manager::get`** is commented out in the source, so it has nothing to model.
- **Relocation and growth.**
  - Vector relocation and the growth policy follow libstdc++: the capacity grows from n to
    n + max(n, 1). libstdc++ caps that growth at `max_size()`; the cap is not modelled.
  - A moved-from vector is taken to be empty.
  - The unordered map's bucket layout is not modelled.
- **smem `Chunk<T>`.**
  - The `Chunk(T&&)` constructor reads `other.base_` from a `T`; it only compiles for a `T`
    that has such a member, so it is not modelled.
  - The four assignment operators never return `*this`; the model gives the assigned chunk's
    value.
- **Self move-assignment** is guarded in the source. The functional `ChunkTags.MoveAssign` and
  `DataChunks.MoveAssign` describe assignment between two distinct chunks.
- Utility.CanAlias: the contract characterises the answer only when neither range end passes
  2^64; for wrapped ends the function's definition alone says what `can_alias` computes.
- SmemChunks.Assign: self-assignment locks the same non-recursive std::mutex twice, which is
  undefined behaviour; the function describes assignment between two distinct chunks.
- SmemChunks.MoveAssign: the same self-assignment case is not modelled; the function describes
  move assignment between two distinct chunks.
- Ops.SendRecv: a failed MPI_Recv is taken to leave the destination bytes unchanged, which MPI
  does not promise.
- DataSets.Data.Reserve: `reserve(num)` throws `std::length_error` when `num` exceeds the
  vector's `max_size()`, and `std::bad_alloc` when the allocation fails. Neither exception is
  modelled, so the model grants capacity `num` for every size_t `num`.
- DataSets.Data.NamedReserved: the `(name, num)` constructors call `reserve(num)`, so they share
  the two unmodelled exceptions of `DataSets.Data.Reserve`. For example, `Data("x", 2^64 - 1)`
  throws, while the model builds a Data with that capacity.
- DataTags.DataTag.AddChunkTagFromMovedParts: the state a moved-from vector is left in is a
  parameter (`leftover`), since C++ only says it is valid but unspecified.
- FileRegistry.SharedFile.Close:
  - `close()` never clears `is_open_`, and in the build without MPI it returns BEO_FAIL after a
    successful fclose. The model keeps both behaviours of the code.
  - The MPI build returns MPI_File_close's status instead; it is not modelled.

## Findings

| source | as written | input that shows it | evidently intended | confidence | as-written member | corrected member |
|---|---|---|---|---|---|---|
| src/L0/chunk.hpp:205 | `free()` calls std::free only when the chunk is not allocated, so it passes nullptr or nothing | a chunk allocated at address 4096: free() (and so the destructor) never releases the buffer (`Chunks.FreeGuardInverted`) | release the buffer when one is held | high; not executed | Chunks.FreedAsWritten | Chunks.Freed |
| src/L0/utility.hpp:69-72 | inside namespace beo the unqualified `memmove(dest, src, len)` names beo::memmove itself, with the same arguments | src = 4096, len = 8, dest = 4104: the buffers touch, so the call recurses forever (`Utility.AdjacentBuffersNeverReturn`); send_recv without MPI from 0 to 4 over 8 bytes never returns (`Ops.OverlappingLocalCopyHangs`) | the C library's overlap-safe memmove | high; not executed | Utility.MemmoveAsWritten | Utility.Memmove |
| smem_nodes/shared_data.hpp:37 | num_chunks = len / chunk_len + len % chunk_len | len = 10, chunk_len = 4 gives 4 chunks where 3 suffice (`SharedDataInfo.TenInChunksOfFour`) | the ceiling of len / chunk_len | high; not executed | SharedDataInfo.NumChunksAsWritten | SharedDataInfo.NumChunks |
| src/Enviroment/files.hpp:171-174 | the range-for binds each entry by value, so `close()` runs on a copy whose is_open_ is false | one open file in the registry: after finalize() it still holds its handle (`FileRegistry.Files.Finalize`) | close every stored file | high; not executed | FileRegistry.Files.Finalize | FileRegistry.Files.FinalizeByReference |
| src/Data/data.hpp:320-328 | Chunk's move constructor (src/Data/chunk.hpp:170) is not noexcept, so std::vector relocates by copy construction, which sets status f | a Data holding one chunk of status u at capacity 1: add_chunk turns the first chunk's status into f (`DataSets.AppendRelocationResetsStatus`) | adding a chunk leaves the earlier chunks as they were | medium; not executed | DataSets.Appended | DataSets.AppendedByMove |

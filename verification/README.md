# Verification of the gateway's disk, display, transport and admission cores

This project models the parts of the virtual machine gateway whose correctness spans several functions,
many steps or every interleaving, and proves properties of the models:

- **QCOW2 images** (`Qcow2*.dfy`, `HostFile.dfy`, `RefcountCache.dfy`, `ClusterOwners.dfy`): a writable image with
  two-level tables, 16-bit reference counts, append-only allocation, a refcount-block cache and rollback of torn
  metadata writes. The host file is an adversary: every metadata write may persist any prefix and fail. The
  abstraction is the virtual disk as a flat byte array; every method states its effect on that array and keeps the
  ownership invariant (`Qcow2Meta.Meta.Healthy`) or, after a write fault, what reads consult
  (`Qcow2Handle.Readable`). `Qcow2Safety.dfy` collects what follows for every open image, `Qcow2Growth.dfy`
  says what a run of steps leaves behind, `Qcow2Crash.dfy` what every single host call leaves behind,
  `Qcow2Reopen.dfy` that the file can be opened again, and `Qcow2Format.dfy` states header, entries, disk and
  counters in the bytes of the file. `Qcow2Blank.dfy` and `Qcow2Sample.dfy` give images that meet all of it.
- **virtio-blk** (`Blk.dfy`): batches, completion order and durability over an image whose calls may fail and a guest
  that may rewrite its memory at any time.
- **Framebuffer damage** (`Damage.dfy`, `Framebuffer.dfy`): per-tile versions that let slow readers catch up, and
  copy-on-write sharing of published frames.
- **RDP graphics** (`Graphics.dfy`, `Wire.dfy`, `Reassembly.dfy`, `Segments.dfy`): the acknowledgment window as steps of
  one writer and one reader, the batched fragment writer against the layered one, reassembly, and the segment
  envelope of MS-RDPEGFX section 2.2.5.1.
- **Gateway admission** (`TokenBucket.dfy`, `Admission.dfy`, `Sessions.dfy`, `Memory.dfy`): connection admission,
  sessions with grants and leases, and host-memory reservations. Every lock-protected section is one method; what
  every method keeps holds over all interleavings.
- **Machine** (`Initrd.dfy`, `Interrupts.dfy`): initrd placement, and the shared interrupt line with the ACPI SCI.

Time is a parameter of the steps and does not run backwards. Fresh tokens, connection and lease identities, resident
sizes and host memory are parameters as well; the token digest is a parameter function. Failures of files, disks,
transports and interrupt updates are chosen by the environment. The constant `reliable` of a file or disk says that
its environment does not fail, and lets contracts say when an operation must succeed; the constant `waits` of a block
device says that the driver leaves memory alone while its requests are pending.

`Arith.dfy`, `Bytes.dfy` and `Collections.dfy` hold the arithmetic, byte-string and set facts the models share.

## Model

| member | source | states |
|---|---|---|
| `Qcow2Image.Image.WriteAt` | internal/disk/qcow2.go:335-374 | the virtual disk changes by exactly a prefix of the buffer: the reported bytes and, only after a data error, more of the failing chunk; a metadata error leaves the failing cluster as it was, and writing is disabled only by one; every argument error exactly when it applies; with a write fault nothing is touched any more; whatever fails, the header stays, no claim is lost or moved, the file grows by owned clusters only and only clusters of the written range are mapped; on a host that does not fail, with six host clusters of room per touched guest cluster, the whole write succeeds; writing is disabled only after two failed writes or truncations, never by a single one; after every single host call of the write, a torn table entry aside, the file is consistent and shows the old disk with a first part of the buffer |
| `Qcow2Image.Image.ReadAt` | internal/disk/qcow2.go:286-333 | returns exactly the bytes of a flat array of the disk's size, which `Qcow2Format.FlatDisk` gives from the bytes of the file, also after a write fault; end-of-file exactly at the end; fails only if the host fails |
| `Qcow2Image.Image.ReadChunks` | internal/disk/qcow2.go:307-326 | the bytes of a request that fits the disk, one cluster at a time, until one fails |
| `Qcow2Image.Image.WriteChunks` | internal/disk/qcow2.go:354-373 | the chunks of a write that fits the disk, one cluster at a time, until metadata or data fails; torn bytes come with a data error only |
| `Qcow2Image.Image.WriteChunk` | internal/disk/qcow2.go:355-371 | one cluster's worth: what reaches the host is what the flat disk gains, which is nothing after a metadata error, recovered or not |
| `Qcow2Image.Image.ReadChunk` | internal/disk/qcow2.go:308-325 | unallocated L1 and L2 entries and zero-flagged clusters, with or without a host offset, read as zeros |
| `Qcow2Image.Image.HostOffset` | internal/disk/qcow2.go:391-420 | the host offset is where the tables store the guest byte, or the byte reads as zero |
| `Qcow2Image.Image.EnsureWritableCluster` | internal/disk/qcow2.go:422-457 | finds or makes the cluster without changing the guest's view; unless writing is disabled the file grows by at most six clusters, all of them owned, and a failure maps nothing; succeeds when six clusters fit |
| `Qcow2Image.Image.MapNewCluster` | internal/disk/qcow2.go:447-456 | an unmapped entry gets a new zeroed cluster; after a recovered failure the tables are as they were and the cluster is gone, so that the file has grown by published refcount blocks only |
| `Qcow2Image.Image.PrepareMappedCluster` | internal/disk/qcow2.go:459-478 | an existing cluster loses its zero flag only after it was zeroed, so the guest sees no change; no other entry changes, and the file does not grow |
| `Qcow2Image.Image.EnsureL2Table` | internal/disk/qcow2.go:480-525 | the table exists, is loaded, and equals the stored one; a new one maps nothing; after a recovered failure L1 and L2 tables are as they were and the file has grown by published refcount blocks only |
| `Qcow2Image.Image.LoadL2` | internal/disk/qcow2.go:561-588 | a loaded table equals the one on disk |
| `Qcow2Image.Image.UpdateL1Entry` | internal/disk/qcow2.go:590-598 | publishes a zeroed table, which is the only new claim, or leaves the metadata as it was; a torn entry is restored or writing is disabled |
| `Qcow2Image.Image.UpdateL2Entry` | internal/disk/qcow2.go:600-617 | publishes a zeroed cluster, which is the only new claim, or leaves the metadata as it was; a torn entry is restored or writing is disabled |
| `Qcow2Image.Image.AllocateCluster` | internal/disk/qcow2.go:621-664 | the new cluster is unowned, zero, counted once and the last of the file, behind exactly the refcount blocks it needed; after a recovered failure only published refcount blocks remain; once capacity is validated only the host can make it fail; writing is disabled only after two host failures |
| `Qcow2Image.Image.AppendRefcountBlocks` | internal/disk/qcow2.go:634-646 | every block appended on the way is published and owned, and a failure takes back the one that failed |
| `Qcow2Image.Image.CountNewCluster` | internal/disk/qcow2.go:648-663 | the appended cluster is counted; or the file has its old length again, its old bytes but for a cleared counter, and the counter is zero; or writing is disabled |
| `Qcow2Image.Image.TakeBackCluster` | internal/disk/qcow2.go:651-661 | after a torn count the counter is cleared and the file cut to its old length, or writing is disabled |
| `Qcow2Image.Image.ValidateAppendCapacity` | internal/disk/qcow2.go:668-689 | accepts exactly the appends that stay inside the refcount table and the signed 64-bit file range, blocks included |
| `Qcow2Image.Image.AppendRefcountBlock` | internal/disk/qcow2.go:691-720 | the block counts itself; a torn block or table entry is undone by cutting the file back, or writing is disabled |
| `Qcow2Image.Image.WriteNewBlock` | internal/disk/qcow2.go:691-697 | a block that counts itself lies past the old end; whatever part of it arrived, the image is consistent |
| `Qcow2Image.Image.CutFile` | internal/disk/qcow2.go:697-715 | the file is exactly as it was before the block was written, or writing is disabled by a failed truncation |
| `Qcow2Image.Image.PublishRefcountBlock` | internal/disk/qcow2.go:705-719 | the table entry, the file and the cache agree on the new block |
| `Qcow2Image.Image.Refcount` | internal/disk/qcow2.go:722-739 | the counter read through the cache is the counter on disk |
| `Qcow2Image.Image.SetRefcount` | internal/disk/qcow2.go:778-804 | sets an unowned cluster's counter on disk and in the cache together, changing no other byte; a torn counter leaves the image consistent and the block uncached |
| `Qcow2Image.Image.WriteMetadata` | internal/disk/qcow2_write.go:10-21 | a short write counts as failure and may have persisted any prefix |
| `Qcow2Image.Image.WriteMetadataEntry` | internal/disk/qcow2_write.go:25-38 | the new entry, or the old one again, or a sticky fault; the fault takes two failed writes |
| `Qcow2Image.Image.RollbackNewCluster` | internal/disk/qcow2_write.go:48-60 | reclaims a cluster whose pointer was restored: its counter is zero, the file ends where it began and nothing else changed, or writing is disabled; the guest's view is unchanged |
| `Qcow2Image.Image.ReadTable` | internal/disk/qcow2.go:861-884 | the entries are the big-endian numbers in the file |
| `Qcow2Safety.ConsistentOnDisk` | internal/disk/qcow2_write.go:10-60 | after any run without a write fault the L1 table, the refcount table and every loaded L2 table are the bytes on disk, and the image is consistent |
| `Qcow2Safety.OneOwner` | internal/disk/qcow2.go:422-525 | header, tables, refcount blocks and data clusters share no host cluster, not even the unused rest of one, and lie in the file |
| `Qcow2Safety.OneReference` | internal/disk/qcow2.go:619-664 | every owned cluster has reference count one |
| `Qcow2Safety.BlockCountsItself` | internal/disk/qcow2.go:691-720 | every refcount block counts itself once |
| `Qcow2Safety.MappingInjective` | internal/disk/qcow2.go:391-457 | two guest bytes never share a host byte |
| `Qcow2Safety.DataOffMetadata` | internal/disk/qcow2.go:422-457 | guest data never lands on metadata |
| `Qcow2Safety.CacheAgrees` | internal/disk/qcow2.go:741-804 | every cached refcount block is a live block and equals its bytes on disk, even after torn writes |
| `Qcow2Growth.EvolvesTwice` | internal/disk/qcow2.go:335-374 | steps that keep the header, lose no claim and grow the file by owned clusters compose, up to a step that disables writing |
| `Qcow2Growth.GrewTwice` | internal/disk/qcow2.go:619-720 | every cluster appended by a run of steps belongs to somebody at its end |
| `Qcow2Growth.Published` | internal/disk/qcow2.go:447-456 | appending a cluster and pointing an entry at it grows the file by owned clusters only |
| `Qcow2Growth.Withdrawn` | internal/disk/qcow2_write.go:48-60 | appending a cluster and taking it back leaves only the refcount blocks that were published for it |
| `Qcow2Growth.MapsOnlyTwice` | internal/disk/qcow2.go:354-373 | a run of chunks maps only guest clusters that it writes |
| `Qcow2Crash.DataMoments` | internal/disk/qcow2_write.go:25-38 | an L2 entry that went out whole leaves a consistent file with the same disk, even if its write was reported as failed |
| `Qcow2Crash.TableMoments` | internal/disk/qcow2_write.go:25-38 | so does an L1 entry |
| `Qcow2Crash.BlockMoments` | internal/disk/qcow2_write.go:25-38 | so does a refcount-table entry |
| `Qcow2Crash.KeptTwice` | internal/disk/qcow2.go:422-525 | steps whose every host call leaves a consistent file with the same disk compose |
| `Qcow2Crash.WithinMore` | internal/disk/qcow2.go:354-373 | over the chunks of a write every host call leaves a first part of the buffer written |
| `Qcow2Guest.ChunkWritten` | internal/disk/qcow2.go:355-371 | writing the host chunk writes that chunk of the flat disk and nothing else of it |
| `Qcow2Guest.ChunkRead` | internal/disk/qcow2.go:308-325 | what the tables point to is what the flat disk holds |
| `Qcow2Guest.HiddenWritten` | internal/disk/qcow2.go:459-478 | bytes under a zero-flagged cluster are invisible to the guest |
| `Qcow2Publish.L2TablePublished` | internal/disk/qcow2.go:513-524 | pointing an empty L1 entry at a zeroed, counted cluster keeps the image consistent and the guest's view unchanged |
| `Qcow2Publish.DataPublished` | internal/disk/qcow2.go:447-456 | pointing an L2 entry at a zeroed, counted cluster keeps the image consistent and the guest's view unchanged |
| `Qcow2Publish.RefBlockPublished` | internal/disk/qcow2.go:705-719 | pointing a refcount-table entry at a block that counts itself keeps the image consistent |
| `Qcow2Publish.EntryPointsTo` | internal/disk/qcow2.go:33-39 | an offset below 2^56 with the copied flag is a valid entry that reads back as that offset |
| `Qcow2Handle.TornEntry` | internal/disk/qcow2_write.go:25-44 | a torn table entry leaves everything the handle's reads consult intact |
| `Qcow2Handle.CounterTorn` | internal/disk/qcow2.go:791-798 | a torn counter of an unowned cluster harms nothing once its block is dropped from the cache |
| `Qcow2Handle.LocateMeaning` | internal/disk/qcow2.go:806-830 | on aligned blocks the computed counter location is the format's |
| `Qcow2Alloc.NeededSteps` | internal/disk/qcow2.go:634-664 | each appended block brings the allocation one step closer; two always suffice |
| `Qcow2Alloc.SpaciousCapacity` | internal/disk/qcow2.go:668-689 | three clusters of room are enough for one append |
| `Qcow2Alloc.NewBlockCountsItself` | internal/disk/qcow2.go:691-697 | in a new block only its own counter is one |
| `Qcow2Alloc.CutBack` | internal/disk/qcow2.go:697-715 | a write past the end, whole or torn, is undone by truncation |
| `HostFile.File.WriteMetadataAt` | internal/disk/qcow2.go:72-74 | the metadata writer may persist any prefix, fail, or report too few bytes; each counts as one failure |
| `HostFile.File.Truncate` | internal/disk/qcow2_write.go:48-60 | truncation happens entirely or not at all |
| `RefcountCache.Cache.Insert` | internal/disk/qcow2.go:744-769 | the index stays injective onto live slots; first-in first-out eviction drops exactly the evicted block, never a newer mapping of the same block |
| `RefcountCache.Cache.Invalidate` | internal/disk/qcow2.go:771-776 | drops exactly that block |
| `RefcountCache.Cache.Update` | internal/disk/qcow2.go:799-803 | changes exactly that counter of a cached block |
| `RefcountCache.Cache.Lookup` | internal/disk/qcow2.go:727-738 | finds exactly the cached blocks |
| `RefcountCache.Cache.Bounded` | internal/disk/qcow2.go:741-769 | resident data stays within 4 MiB for every cluster size |
| `RefcountCache.ReuseSlot` | internal/disk/qcow2.go:759-768 | reusing an invalidated slot keeps the mapping its block has elsewhere |
| `ClusterOwners.Owners.Claim` | internal/disk/qcow2_layout.go:21-43 | the paged bitmap is a plain set: overlap exactly when a cluster was claimed before, unless pages run out |
| `ClusterOwners.FullMeansMany` | internal/disk/qcow2_layout.go:10-33 | pages run out only when more clusters exist than all pages hold |
| `Qcow2Layout.ValidateLayout` | internal/disk/qcow2_layout.go:48-107 | accepted means the ownership invariant holds, corrupt means it does not, and on a host that does not fail one of the two is decided unless the image is too large for the bitmap |
| `Qcow2Layout.ClaimMetadata` | internal/disk/qcow2_layout.go:55-70 | header, L1 table and refcount table are in the file and apart |
| `Qcow2Layout.ClaimRefcountBlocks` | internal/disk/qcow2_layout.go:109-126 | refcount blocks are aligned, in the file and apart from everything before |
| `Qcow2Layout.ClaimL2Tables` | internal/disk/qcow2_layout.go:128-149 | L1 entries are well formed and their tables in the file and apart from everything before |
| `Qcow2Layout.CheckRefcounts` | internal/disk/qcow2_layout.go:151-164 | accepts a region exactly when each of its clusters is counted once |
| `Qcow2Layout.ValidateDataMappings` | internal/disk/qcow2_layout.go:166-190 | L2 entries are well formed and their clusters in the file, apart and counted once |
| `Qcow2Layout.CheckMetadata` | internal/disk/qcow2_layout.go:77-88 | every cluster of header, L1 table, refcount table and refcount blocks is counted once |
| `Qcow2Layout.CheckTables` | internal/disk/qcow2_layout.go:89-104 | does so for every L2 table |
| `Qcow2Layout.AllChecked` | internal/disk/qcow2_layout.go:48-107 | the passes together establish the ownership invariant |
| `Qcow2Layout.DescribedUnique` | internal/disk/qcow2_layout.go:48-107 | the tables of a consistent image are the stored ones, so that a file has one consistent reading |
| `Qcow2Header.L1CoverageExact` | internal/disk/qcow2_header.go:39-47 | the L1 table passes the check exactly when every guest offset below the disk size has an entry |
| `Qcow2Header.HeaderGeometry` | internal/disk/qcow2_header.go:23-50 | an accepted header gives a geometry in which every guest offset has an in-range L1 index |
| `Qcow2Extensions.ValidateHeaderExtension` | internal/disk/qcow2_header.go:104-127 | refuses exactly the unsupported kinds and malformed feature name tables |
| `Qcow2Extensions.ValidateHeaderExtensions` | internal/disk/qcow2_header.go:72-102 | the loop reads the area record by record to its end or terminator |
| `Qcow2Extensions.AcceptedIff` | internal/disk/qcow2_header.go:72-102 | accepted exactly when the area is a list of good extensions of distinct kinds, padded to eight bytes, then the end or a terminator |
| `Qcow2Open.ValidateHeaderCluster` | internal/disk/qcow2_header.go:52-70 | zero padding behind a longer header, then acceptable extensions |
| `Qcow2Open.ReadHeader` | internal/disk/qcow2.go:149-284 | accepts exactly the supported headers, which `Qcow2Format.SupportedIff` gives byte by byte, unless the host fails or the file is too short |
| `Qcow2Open.Open` | internal/disk/qcow2.go:111-147 | an accepted handle is valid and shows the disk the file describes; a consistent image is refused only if the host fails or the bitmap is too small |
| `Qcow2Format.SupportedIff` | internal/disk/qcow2.go:149-284 | the accepted header clusters, byte by byte and in both directions: magic, version 2 or 3, no backing file, no encryption, no snapshots, 9 to 21 cluster bits; nonempty aligned tables within 32 MiB, 8 MiB and the signed 64-bit range; an L1 entry for every guest byte; for version 3 zero incompatible and autoclear features, 16-bit counters, a header length of at least 104 in steps of eight and zero padding; then the extensions |
| `Qcow2Format.GeometryBytes` | internal/disk/qcow2.go:111-147 | cluster size, disk size and both tables are where the header bytes say |
| `Qcow2Format.FlatByte` | internal/disk/qcow2.go:391-420 | every byte of the disk from the bytes of the file: the L1 entry at 8 * (x / cs / (cs / 8)), the L2 entry at 8 * (x / cs % (cs / 8)) of the table that its bits 9 to 55 give, then zero for an empty entry or a zero flag, else the file byte x % cs behind bits 9 to 55 of the L2 entry, which lies in the file |
| `Qcow2Format.FlatDisk` | internal/disk/qcow2.go:527-588 | so the whole disk of an accepted image is a function of its file, header included |
| `Qcow2Format.CountInFile` | internal/disk/qcow2.go:806-830 | the counter of every owned cluster c from the bytes of the file: two bytes at 2 * (c % (cs / 2)) of the block that refcount-table entry c / (cs / 2) gives, which hold one |
| `Qcow2Format.ValidL2Iff` | internal/disk/qcow2.go:843-859 | an L2 entry is valid exactly when it is a sector-aligned offset below 2^56, a zero flag (version 3 only) and a copied flag (with an offset only), and these are what is read from it |
| `Qcow2Format.ValidL1Iff` | internal/disk/qcow2_layout.go:128-149 | an L1 entry is accepted exactly when it is empty or a cluster-aligned nonzero offset below 2^56 with or without the copied flag |
| `Qcow2Format.WrittenEntry` | internal/disk/qcow2.go:447-456 | entries are written with the copied flag, bit 63, and nothing else beside the offset |
| `Qcow2Reopen.HeadedEvolves` | internal/disk/qcow2.go:335-374 | no write, torn or not, touches the header |
| `Qcow2Reopen.SameTables` | internal/disk/qcow2_layout.go:48-107 | two consistent handles on one file have the same tables |
| `Qcow2Reopen.OpenConsistent` | internal/disk/qcow2.go:111-147 | a consistent file with an acceptable header opens to its own tables |
| `Qcow2Reopen.Reopen` | internal/disk/qcow2.go:111-147 | after any run without a write fault the file is never called corrupt, opening it again gives the same tables and the same disk, and on a host that does not fail it is accepted unless the image is too large for the bitmap |
| `Qcow2Reopen.ReopenAfterCrash` | internal/disk/qcow2.go:111-147 | what a stop after any host call of a write leaves, unless it split a table entry, is never refused as corrupt and shows the old disk with a first part of the buffer |
| `Qcow2Reopen.WriteAndReopen` | internal/disk/qcow2_test.go:12-42 | what a write reported, and nothing else, is on the disk when the file is opened again |
| `Qcow2Blank.BlankConsistent` | internal/disk/qcow2_layout.go:48-107 | a consistent image exists: header, L1 table, refcount table and refcount block of 512 bytes each, with an acceptable header and a disk of zeros |
| `Qcow2Sample.SampleConsistent` | internal/disk/qcow2_layout.go:48-107 | so does one of version 3 with an L2 table and a written cluster, and its disk shows the written bytes where they were written |
| `Blk.SnapshotRequest` | internal/virtio/blk.go:334-396 | a request is taken exactly when its chain is sound; what is kept is what the driver's header and descriptors say, all of it range-checked; the length is the sum over the chain in 32 bits, or one for FLUSH |
| `Blk.ThreeDescriptors` | internal/virtio/blk.go:334-396 | a read or write is taken exactly when its three descriptors are distinct and in guest memory |
| `Blk.ThreeLengths` | internal/virtio/blk.go:334-396 | the length reported for a read or write is that of header, data and status together |
| `Blk.TwoDescriptors` | internal/virtio/blk.go:334-396 | any other request of two descriptors is taken exactly when bit 0 of the first's flags chains them, bit 1 of the second's lets the device write, and the second is a nonempty range of guest memory |
| `Blk.DriverHeader` | internal/virtio/blk.go:349-363 | a header of a 32-bit type, four reserved bytes and a 64-bit sector, low bytes first, is taken as that type and sector |
| `Blk.RangeIff` | internal/guestmem/memory.go:11-21 | a range is valid exactly when none of its bytes is past the end of memory or in the hole from 0xd0000000 to 4 GiB; an empty one may stand at the end of either part |
| `Blk.RingDistinct` | internal/virtio/blk.go:317-331 | used-ring positions of a batch are distinct across the 16-bit wrap |
| `Blk.Device.SnapshotBatch` | internal/virtio/blk.go:258-267 | one unsound request refuses the batch before any of it runs |
| `Blk.Device.Execute` | internal/virtio/blk.go:271-291 | a write puts a prefix of its buffer on the disk, all of it when it succeeds, and nothing else changes; a read fills at most its buffer, with the disk's bytes when it succeeds; a refused request does neither; succeeds on a disk that does not fail unless the device is read-only |
| `Blk.Device.SyncImage` | internal/virtio/blk.go:408-415 | clears the dirty flag only when everything is durable |
| `Blk.Device.CompleteRequests` | internal/virtio/blk.go:317-331 | each request gets its own used-ring entry and its status byte, in order |
| `Blk.AnsweredStatus` | internal/virtio/blk.go:317-331 | a status byte that no later request shares says how the request ended |
| `Blk.Device.ExecuteAll` | internal/virtio/blk.go:269-291 | a sync is due exactly when some write reaches the image; disk and memory are what the effects of the requests, in order, make of them |
| `Blk.Device.ExecuteAndSync` | internal/virtio/blk.go:269-312 | one sync covers the batch; if it fails every write is reported as failed, and a write reported as done is durable |
| `Blk.Device.RunWriteback` | internal/virtio/blk.go:271-303 | with FLUSH, each request is answered before the next runs and logged at the disk version that its own write and all before it made; a FLUSH that succeeded made that version durable; disk and memory are what the effects in order make of them |
| `Blk.Device.RunOne` | internal/virtio/blk.go:271-299 | one request runs on the memory the guest left and is completed at once, at the disk version it made |
| `Blk.Device.RunWritethrough` | internal/virtio/blk.go:304-315 | without FLUSH, all requests are logged at the last version of the batch, and a write reported as done means that this version is durable; disk and memory are what the effects in order make of them, and then the answers |
| `Blk.FailWrites` | internal/virtio/blk.go:304-312 | after a failed sync no write of the batch is reported as done |
| `Blk.Device.IO` | internal/virtio/blk.go:229-315 | a refused batch changes neither image nor used ring, exactly when some chain is unsound; otherwise every request completes once, as what the driver asked: the `k`-th id is the entry of the available ring at (last + k) mod 2^16 mod the ring size, and the used ring gets it at (used + k) mod 2^16 mod the ring size; the disk is then the old one with each payload patched in, in order, whole for a write reported as done and a prefix for a failed one; a successful read delivers what the writes before it left; for a driver that waits the payloads are its buffers and memory ends as the answers say; the disk version grows by exactly the writes that reach the image, and durability in both modes is stated in terms of it |
| `Blk.HandsBack` | internal/virtio/blk.go:258-331 | the heads come back through the used ring in the order of the available ring, across both wraps |
| `Blk.CarriedMore` | internal/virtio/blk.go:269-303 | one more request extends the batch: its read sees all writes before it, its payload is the buffer at its turn |
| `Blk.Device.Reset` | internal/virtio/blk.go:172-177 | a reset forgets ring positions but not that data is unsynced |
| `Blk.Device.Close` | internal/virtio/blk.go:417-431 | a clean close means everything is durable; closing writes nothing |
| `Blk.HonestMore` | internal/virtio/blk.go:229-315 | completing requests keeps the durability promise for the whole log |
| `Blk.FlushCovers` | internal/virtio/blk.go:229-315 | after a FLUSH that succeeded every write completed before it, in this batch or an earlier one, is durable |
| `Blk.StampedMore` | internal/virtio/blk.go:269-303 | one more request keeps what the log says of versions and durability |
| `Damage.PublishKeepsSync` | internal/virtio/framebuffer_damage.go:12-101 | a publication keeps every reader's copy right wherever its tile stamp is not newer |
| `Damage.RunKeepsSync` | internal/virtio/framebuffer_damage.go:12-143 | so does any run of full and partial publications and size changes |
| `Damage.AddRect` | internal/virtio/framebuffer_damage.go:162-177 | merging keeps the rectangles disjoint and covers exactly one run more |
| `Damage.ChangedTileRects` | internal/virtio/framebuffer_damage.go:145-182 | at most 128 disjoint rectangles in bounds cover exactly the changed tiles; the whole picture only if more than 128 tiles changed |
| `Framebuffer.DrawDamage` | internal/virtio/framebuffer_damage.go:52-59 | exactly the damaged pixels are taken from the new image |
| `Framebuffer.StampDamage` | internal/virtio/framebuffer_damage.go:75-101 | exactly the touched tiles are stamped |
| `Framebuffer.Display.Flush` | internal/virtio/framebuffer.go:117-152 | publishes the image in a fresh buffer, or changes nothing; fails exactly on a missing or too small picture |
| `Framebuffer.Display.FlushDamage` | internal/virtio/framebuffer_damage.go:12-71 | publishes exactly the damaged part; frames handed out before keep their pixels; nothing is published only when the damage is empty; a partial publication stamps exactly the damaged tiles, a full one all |
| `Framebuffer.Display.DrawWhole` | internal/virtio/framebuffer_damage.go:28-63 | a size change or first frame is drawn whole, and every tile is stamped |
| `Framebuffer.Display.DrawPart` | internal/virtio/framebuffer_damage.go:44-66 | a buffer is copied before it is drawn on exactly if it was handed out; exactly the damaged tiles are stamped |
| `Framebuffer.Display.ChangedFrame` | internal/virtio/framebuffer.go:407-420 | hands out the current frame exactly when it is newer, and marks it shared |
| `Framebuffer.Display.CopyFrameChanges` | internal/virtio/framebuffer_damage.go:112-143 | leaves the reader's image equal to the current frame; returns the whole picture when forced, before the first publication or when the reader's geometry differs, and otherwise exactly the changed tiles unless there are more than 128 of them; every pixel that changed for the reader is covered |
| `Framebuffer.ChangesSince` | internal/virtio/framebuffer_damage.go:122-127 | the whole picture when asked for or before the first publication, else exactly the tiles changed since, or the whole if there are more than 128 |
| `Framebuffer.CaughtUp` | internal/virtio/framebuffer_damage.go:112-143 | refreshing the damaged parts makes a copy in sync equal to the frame |
| `Framebuffer.RowsInside` | internal/virtio/framebuffer.go:128-132 | the size check keeps every read of the picture inside its pixels |
| `Framebuffer.HoldsIff` | internal/virtio/framebuffer.go:117-132 | a picture is taken exactly when it is large enough and its last row ends inside its pixels |
| `Graphics.Window.Reserve` | internal/rdp/graphics.go:205-218 | numbers a frame never used before and puts it in flight, at most two at a time |
| `Graphics.Window.Complete` | internal/rdp/graphics.go:222-246 | never reinserts an acknowledged frame: what leaves the window is retired for good; a completion of an old generation changes nothing; a failed write frees its place and wakes the writer |
| `Graphics.Window.Acknowledge` | internal/rdp/graphics.go:297-325 | that frame and all before it leave the window, are retired for good and adapt the pace; a frame that is not in flight retires nothing; after it the frame is not in flight |
| `Graphics.Window.Suspend` | internal/rdp/graphics.go:301-308 | acknowledgments off: everything in flight is retired, pacing starts anew and sending is enabled with a wake-up; before the channel is ready it is an error and changes nothing |
| `Graphics.Window.Negotiate` | internal/rdp/graphics.go:278-296 | ready exactly after the first supported, answered advertisement; an unsupported one closes the channel; a second one after that is an error |
| `Graphics.Window.ReadPdu` | internal/rdp/graphics.go:275-341 | each unit of a message steps the negotiation, only ever takes frames out of the window, and leaves a wake-up whenever the writer could send again |
| `Graphics.Window.ReadMessage` | internal/rdp/dynamic.go:155-160 | a closed channel ignores messages; otherwise the units are read in order up to the first error, even after one of them closed the channel; every frame a message acknowledged is out of the window |
| `Graphics.ReadyIff` | internal/rdp/graphics.go:257-296 | a message makes the channel ready exactly if a supported, answered advertisement follows harmless units only, and leaves it ready although closed exactly if it was turned down before |
| `Graphics.ReadyThoughClosed` | internal/rdp/graphics.go:257-296 | that a closed channel is not ready is false: an unsupported and then a supported advertisement in one message |
| `Graphics.ReadyStays` | internal/rdp/graphics.go:278-296 | a ready channel is never closed by a message |
| `Graphics.Window.Reset` | internal/rdp/graphics.go:353-359 | a new generation; every frame of the old one is retired |
| `Graphics.Window.Resized` | internal/rdp/display.go:130-149 | a resize retires the whole window and starts pacing anew |
| `Graphics.Window.Close` | internal/rdp/dynamic.go:161-177 | closing retires the whole window, starts pacing anew and disables sending |
| `Graphics.Window.Check` | internal/rdp/graphics.go:134-161 | a writer that cannot send waits; whenever it could send again a wake-up is waiting for it |
| `Graphics.Window.Wake` | internal/rdp/graphics.go:134-157 | taking the wake-up ends the wait |
| `Graphics.Window.FrameInterval` | internal/rdp/graphics.go:92-108 | the interval is between the writer's own and 250 ms |
| `Graphics.Target` | internal/rdp/graphics.go:376-389 | the target interval never leaves its bounds |
| `Graphics.BacklogSlows` | internal/rdp/graphics.go:376-389 | a backlog of up to n average frames asks for n base intervals more, as long as that is at most 250 ms, and for the most that is at most 250 ms otherwise; half the turnaround if that is more; without backlog for the base interval |
| `Graphics.Adapted` | internal/rdp/graphics.go:391-400 | slowing down is immediate, speeding up is by steps of at most a quarter of the base or of the way, and does make progress |
| `Graphics.Observed` | internal/rdp/graphics.go:343-351 | the average frame size stays between the old average and the new size |
| `Graphics.ObservedEighth` | internal/rdp/graphics.go:343-351 | a frame moves the average an eighth of the way to its own size |
| `Graphics.Smoothed` | internal/rdp/graphics.go:366-374 | a measured turnaround stays positive |
| `Graphics.SmoothedEighth` | internal/rdp/graphics.go:366-374 | an acknowledgment moves the turnaround an eighth of the way to its own |
| `Wire.PerRoundTrip` | internal/rdp/protocol.go:606-630 | reading back a length prefix gives the payload |
| `Wire.ChannelShape` | internal/rdp/protocol.go:407-434 | the static, MCS and TPKT layers amount to one fixed head, a length and the data |
| `Wire.ChannelSize` | internal/rdp/protocol.go:457-464 | the precomputed size is the layered packet's |
| `Wire.StaticBytes` | internal/rdp/dynamic.go:290-302 | the static header in bytes: the length, low byte first, then the flags of a first and last chunk |
| `Wire.FragmentBytes` | internal/rdp/dynamic.go:319-345 | the headers of the batched writer in bytes |
| `Wire.AppendChannelTpkt` | internal/rdp/protocol.go:466-502 | the packet filled in place is the layered packet |
| `Wire.RestStep` | internal/rdp/dynamic.go:319-345 | header and data appended in one go are one fragment sent through the static layer |
| `Wire.Connection.WriteDynamic` | internal/rdp/dynamic.go:308-352 | the batched output is byte for byte the fragments sent one by one; if the transport fails, a prefix of it, and it fails exactly when the transport takes less |
| `Wire.Connection.WriteFull` | internal/rdp/protocol.go:559-572 | writes everything however the transport cuts it up, or a prefix and an error exactly when the transport takes less |
| `Wire.Connection.WriteWire` | internal/rdp/protocol.go:436-455 | so does the writer of whole batches |
| `Reassembly.FragmentBuffer.First` | internal/rdp/dynamic.go:213-225 | bounded start of a message |
| `Reassembly.FragmentBuffer.Next` | internal/rdp/dynamic.go:227-246 | bounded continuation of a message |
| `Reassembly.FragmentBuffer.Static` | internal/rdp/dynamic.go:248-274 | chunk flags and total agree with the message under construction: `Reassembly.ChunkRefused` says which chunks are refused and `Reassembly.ChunksRestore` that all others add up to the message |
| `Reassembly.StaticOnce` | internal/rdp/dynamic.go:248-302 | a chunk that is first and last passes straight through |
| `Reassembly.ChunksRestore` | internal/rdp/dynamic.go:213-274 | every message of one byte to 1 MiB, however a peer cuts it into nonempty chunks with the first and the last marked, is delivered whole with the last chunk and leaves the buffer empty |
| `Reassembly.ChunkRefused` | internal/rdp/dynamic.go:248-274 | a chunk is refused exactly when it is compressed, first in the middle of a message, of no or too long a message, a continuation of nothing or with another total, too long, an empty continuation, or marked as last when it is not or the other way round |
| `Reassembly.IntegerRead` | internal/rdp/dynamic.go:276-288 | integers of one, two and four bytes read back; other codes and short ones are refused |
| `Reassembly.PeerPdu` | internal/rdp/dynamic.go:117-204 | with the channel and the length in any of the three widths: data continues the message, data-first begins one, and neither data for another channel nor another command touches it |
| `Reassembly.LaterRestores` | internal/rdp/dynamic.go:193-246 | the later fragments complete the message |
| `Reassembly.FragmentsRestore` | internal/rdp/dynamic.go:206-352 | reading the fragments of a message delivers that message and leaves the buffers empty |
| `Reassembly.DeliveredBounds` | internal/rdp/dynamic.go:206-274 | whatever packets it is fed, in one chunk or many, no reader delivers an empty message or one over 1 MiB, and its buffers stay bounded |
| `Reassembly.ReadConcat` | internal/rdp/dynamic.go:206-274 | reading goes on where it stopped |
| `Reassembly.TripIff` | internal/rdp/dynamic.go:206-352 | a message survives the trip exactly when it has between one byte and 1 MiB |
| `Reassembly.StreamRestored` | internal/rdp/dynamic.go:206-352 | messages sent one after the other arrive one after the other |
| `Segments.SegmentGraphics` | internal/rdp/dynamic.go:354-377 | the loop emits the segmented envelope |
| `Segments.SegmentedInverse` | internal/rdp/dynamic.go:354-377 | the envelope opens to what was put in exactly up to 65535 segments of 65535 bytes |
| `Segments.PartsLength` | internal/rdp/dynamic.go:354-377 | five bytes of overhead per segment |
| `Segments.FrameFits` | internal/rdp/graphics.go:497-503 | every accepted AVC420 frame stays within 8 MiB after segmentation |
| `Segments.LargestFrame` | internal/rdp/graphics.go:497-503 | the largest accepted frame makes a message five bytes short of 8 MiB |
| `Segments.FrameBytes` | internal/rdp/graphics.go:552-599 | the frame in bytes: start, header of the picture, mask, video and end, with all lengths |
| `Segments.RectAt` | internal/rdp/graphics.go:579-585 | rectangle k of the mask is at byte 8 * k of its list, left, top, right and bottom in 16 bits each |
| `Segments.QualityAt` | internal/rdp/graphics.go:586-590 | each rectangle has quantization 22 and quality 100 |
| `TokenBucket.LookingIsFree` | internal/gateway/admission.go:33-48 | asking a limiter spends nothing |
| `TokenBucket.PaidSpend` | internal/gateway/admission.go:33-48 | spending an available token pays for one more admission within the rate |
| `TokenBucket.RestedIsFull` | internal/gateway/admission.go:33-48 | after a second of rest a bucket is as good as new |
| `TokenBucket.ForgetFull` | internal/gateway/admission.go:93-100 | a full bucket may be forgotten |
| `TokenBucket.IntervalBound` | internal/gateway/admission.go:33-48 | admissions paid for by the bucket number at most rate*(T+1) in any interval of length T |
| `Admission.Server.Prune` | internal/gateway/admission.go:93-100 | drops exactly the records idle for a minute, each of which answers as a new one would from then on; the next pruning is due a minute later |
| `Admission.Server.Admit` | internal/gateway/admission.go:102-150 | admits exactly when every limit leaves room and both limiters hold a token; an admission spends one token of each and changes no other record, a refusal spends nothing; prunes exactly when that is due; a refusal changes no record but the source's limiter, and that only if it was asked |
| `Admission.Server.Expire` | internal/gateway/admission.go:152-163 | only an open, unauthenticated connection expires |
| `Admission.Server.Promote` | internal/gateway/admission.go:165-186 | exactly the open, unexpired connections within deadline and capacity are promoted, changing only their source's pending count; none is ever both expired and authenticated |
| `Admission.Server.Close` | internal/gateway/admission.go:201-224 | takes effect once: a first close gives back what the connection counted for and touches no limiter, a second one changes nothing |
| `Admission.Server.Drain` | internal/gateway/server.go:191-205 | closes every tracked connection: all counters are zero, and nobody is admitted or promoted from then on |
| `Admission.Server.RatesHold` | internal/gateway/admission.go:33-48 | over any interval of length T at most rate*(T+1) connections are admitted, in all and per source |
| `Admission.CountsAdmit` | internal/gateway/admission.go:129-139 | admission keeps all counters equal to the connections they count |
| `Admission.CountsPromote` | internal/gateway/admission.go:179-184 | so does promotion |
| `Admission.CountsClose` | internal/gateway/admission.go:211-221 | so does closing |
| `Admission.PeerPaidPrune` | internal/gateway/admission.go:93-100 | pruning never admits what the unpruned limiter would have refused |
| `Sessions.Store.Revoke` | internal/gateway/session.go:167-186 | cancels every lease of the session and removes exactly its grants |
| `Sessions.Store.Prune` | internal/gateway/session.go:188-204 | keeps exactly what has not expired and cancels exactly the leases of the sessions that have |
| `Sessions.Store.NewSession` | internal/gateway/session.go:106-143 | adds a session exactly when the login is valid and there is room; otherwise only what has expired goes |
| `Sessions.Store.Lookup` | internal/gateway/session.go:145-165 | finds exactly the unexpired session of that token and address; ends exactly an expired one, with its leases and grants, and changes nothing else |
| `Sessions.Store.AllowLogin` | internal/gateway/session.go:206-222 | allows exactly ten attempts per window and address; sessions, grants and leases lose only what has expired |
| `Sessions.Store.ReplaceGrant` | internal/gateway/session.go:238-248 | removes the machine's own grant and counts the others |
| `Sessions.Store.IssueGrant` | internal/gateway/session.go:224-256 | one grant per machine, at most 32, none outliving its session; a refusal loses nothing that was still valid, and leases are cancelled only with their expired sessions |
| `Sessions.Store.PendingGrant` | internal/gateway/session.go:258-290 | registers a lease, not cancelled, with a live session and does not spend the token; nothing else changes but what has expired |
| `Sessions.Store.ClaimGrant` | internal/gateway/session.go:292-312 | claims exactly the working tokens presented from the session's address, once; nothing else changes but what has expired |
| `Sessions.Store.Release` | internal/gateway/session.go:281-287 | the lease is cancelled and forgotten, even if its session is gone |
| `Sessions.Store.Promises` | internal/gateway/session.go:145-312 | after any run: grants name live sessions and do not outlive them, one per machine and at most 32 per session, tokens are claimed at most once and from the session's address, leases of ended sessions are cancelled, and of any 21 allowed logins the last comes a minute after the first |
| `Sessions.FullSession` | internal/gateway/session.go:249-251 | if 32 other machines hold grants this one holds none |
| `Sessions.KeptLive` | internal/gateway/session.go:188-198 | the grants of expired sessions have expired themselves |
| `Sessions.LostEnded` | internal/gateway/session.go:188-198 | the leases that pruning cancels belong to sessions that it ended |
| `Sessions.NewWindow` | internal/gateway/session.go:206-222 | a new window keeps the bound of twenty logins per minute |
| `Sessions.TokenIff` | internal/gateway/session.go:63-83 | a token is looked up exactly when it is 32 bytes in hexadecimal, as it would have been issued |
| `Sessions.LoginIff` | internal/gateway/session.go:108-110 | login names have 1 to 128 characters, none of them NUL, LF or CR |
| `Sessions.LiveUntil` | internal/gateway/session.go:188-204 | sessions and grants last up to their expiry, login windows for a minute, and none is alive at its end |
| `Memory.Manager.CheckMemory` | internal/gateway/manager_memory.go:16-71 | accepts exactly when one more machine fits the budget and all uncommitted reservations fit the free memory; the budget is snapshotted only while idle and only from a readable host |
| `Memory.Manager.Reserve` | internal/gateway/manager.go:553-566 | an accepted start leaves headroom plus all uncommitted reservations available; reservations never exceed the budget, which changes only to a new snapshot while no machine is active |
| `Memory.Manager.StartFailed` | internal/gateway/manager.go:568-575 | frees exactly the failed start's reservation |
| `Memory.Manager.Track` | internal/gateway/manager.go:576-578 | a started process takes over its reservation |
| `Memory.Manager.Exit` | internal/gateway/manager.go:680-687 | an exit frees exactly one reservation |
| `Memory.ResidentMemory` | internal/gateway/manager_memory.go:21-33 | the sum of what each process has resident, up to its own charge, in any order |
| `Memory.HasRoom` | internal/gateway/manager_memory.go:51-70 | the 64-bit checks decide the unbounded inequality |
| `Memory.NoUnderflow` | internal/gateway/manager_memory.go:63-64 | neither the product nor the subtraction wraps |
| `Memory.BudgetDivision` | internal/gateway/manager_memory.go:59-62 | dividing the budget decides whether one more reservation fits |
| `Memory.SnapshotLargest` | internal/gateway/manager_memory.go:39-50 | the budget is the largest that leaves a GiB of the available memory and keeps to the configured limit |
| `Memory.EffectiveLargest` | internal/gateway/manager_memory.go:51-58 | under the present total it is the largest part of it that leaves a GiB |
| `Initrd.InitrdImage` | internal/machine/loader.go:94-133 | terminates with the highest page-aligned address at or above 1 MiB whose bytes are all low RAM, addressable by the kernel, below 4 GiB, not reserved and, with a VESA display, not in its framebuffer; fails only if there is none, and an image is too large exactly when it is larger than one of the three limits |
| `Initrd.FitsIff` | internal/machine/loader.go:94-133 | limit and list of ranges describe exactly those bytes |
| `Initrd.OverlapIsSharing` | internal/machine/loader.go:25-27 | ranges overlap exactly when they share a byte |
| `Interrupts.SharedLine.Set` | internal/machine/pci_irq.go:19-44 | after a call that succeeds the wire is the OR of all sources; after one that fails it is unchanged and wrong |
| `Interrupts.CountIsAny` | internal/machine/pci_irq.go:31-33 | the count is nonzero exactly when some source is high |
| `Interrupts.Power.UpdateSci` | internal/machine/uefi_power.go:121-135 | after success the source is enabled-and-pending, also when earlier updates failed and the level flipped back |
| `Interrupts.Power.Write` | internal/machine/uefi_power.go:69-95 | every byte of the three registers after the access: ones clear the two status bytes, the other four are stored or kept, the sleep trigger never stays; soft-off exactly when the byte for 0xb005 has the trigger and sleep type zero; other sources of the line are untouched |
| `Interrupts.PutBytes` | internal/machine/uefi_power.go:69-84 | writing byte by byte amounts to one update of the six register bytes |
| `Interrupts.Power.Smi` | internal/machine/uefi_power.go:97-110 | switches ACPI mode exactly on the two commands and no other bit; other sources of the line are untouched |
| `Interrupts.Power.PressPowerButton` | internal/machine/uefi_power.go:112-119 | sets the sticky status bit whether or not the event is enabled; other sources of the line are untouched |
| `Interrupts.PowerButtonSticks` | internal/machine/uefi_power.go:69-84 | the button stays pressed until a one is written to its own bit |
| `Interrupts.SciBits` | internal/machine/uefi_power.go:121-123 | the interrupt level is ACPI mode, pressed and enabled |

## Left out

- QCOW2: host files stay at or below 2^56 bytes, the width of an entry's offset field; growth beyond that fails like a full disk.
- QCOW2: a failed truncation leaves the host file as it was; a truncation that fails half-way is not modelled.
- QCOW2: for a crash the host keeps the order of its calls; reordering between syncs is not modelled, nor is a table entry of eight bytes that a crash cuts in two.
- QCOW2: the handle's mutex, `Sync`, `Close` and error texts; errors are classes, and an unreadable image is told from an inconsistent one.
- QCOW2: the virtual size is not tied to a 64-bit machine integer beyond the header's own limit; offsets are unbounded integers.
- Blk: PCI configuration, feature registers and interrupt injection; negotiated writeback is a parameter, and the queue is taken as set up with a power-of-two size.
- Blk: what a guest that does not wait writes to its memory while a batch runs is arbitrary, so that payloads are then tied to memory request by request only.
- Framebuffer: four bytes of a pixel are one 32-bit value; 64-bit wrap-around of the sequence number; text consoles and fallbacks.
- Framebuffer.Display.ChangedFrame: the wake-up channel returned with the frame is not modelled.
- Graphics: 32-bit wrap-around of frame numbers and 64-bit wrap-around of generations; parsing of message units and capabilities, so that a malformed unit is one that fails; the condition that the display is not being reactivated.
- Graphics: how the regions of a repaint mask are chosen, and key-frame detection, which rest on the damage helpers.
- Reassembly: channel creation and capability exchange; the model reads data fragments of an open channel.
- Wire: reuse of the batch buffer between calls; write deadlines.
- Admission: parsing of peer addresses and grouping of IPv6 networks; a source is an opaque number. Limiters use real arithmetic, so floating-point rounding is not modelled.
- Sessions: cookies, passwords and role checks; a lease's own deadline; digests of different tokens are distinct where a fresh token is issued.
- Memory: reserving names and quotas of machines, timeouts and persistence in the manager; only counters, processes and the budget are modelled.
- Initrd: reading the image and guest memory; reserved ranges are taken not to wrap around the 64-bit address space.
- Interrupts: the PM timer and register reads; registers are modelled as their two bytes.
- KVM calls, CPU setup, HTTP handlers, directory login, TLS, networking and key maps are not modelled.

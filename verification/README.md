# Model of the OMF map container and its neighbours

The OMF map format stores a terrain map in one file: a fixed header, a compressed metadata
block, a quadtree skeleton, independently compressed chunks, a sorted chunk directory and a
footer whose hash covers the file. This project models how such a file is written, opened,
cached and patched, how its contents are computed from rasters, and three algorithms beside
it, and proves what each of them promises.

| modules | what they model |
|---|---|
| Bytes, Layout, Records, OnDisk, Sorting | little-endian fields, fixed layouts, the records as plain byte strings, tagged blocks, and the sorts the code relies on |
| Directory, Cache | the sorted chunk directory as a class and as a finite map; the reader's first-in first-out cache |
| WriterModel, Writer, Written, WrittenHeader, WriterCalls | the streaming writer as a state machine, as a class over a seekable sink, and the theorems about what it writes, by header field and by call |
| Reader, Tampering, StoredChunks | opening a file: frame checks, hash, addresses, metadata, directory, skeleton, staleness; what the hash binds; what a chunk read vouches for |
| Patching, Patched, PatchedHeader, Versions, PatchCodec | applying a patch in place, what the patched file reads, its header and extension area, bases of other minor versions, and the patch wire format |
| Fingerprint, SourcesByName, Builder, FreshBuild | content fingerprints of derived layers, what makes each of them stale, why a fresh build verifies, and a whole build as a file |
| Consistency | an explicit implementation of the assumed primitives, and files that meet the theorems' conditions |
| Bits, MortonCodes, NodeKeys, Reals, Quadtree | interleaved codes, node keys and point location |
| Partition, PartitionParts, PartitionNodes, PartitionFigures, PartitionBuild | the recursive partition into a linear quadtree, which squares it emits and gives up, and what their nodes say |
| Lod, LodBuild, LodMeans, LodCut, LodPyramid, Stats, StatsMeaning | chunk splitting, averaged levels and in-map statistics |
| Region, RegionMeaning, StreamKeys | the region index, what its tests decide, and the random-stream keys |
| Grid, Dilation, Flood, Components, Rings, RingArea, RingTrace, EarClip, EarMeaning, Buildings | from a cell mask to building outlines and roofs |
| Socket, SocketSystem, SocketRuns, SocketCalls, SocketClient | the job socket: requests, frames, the service and the wire |

Code that updates state in place is a class or a method with loops, proved against a function
of its inputs; the theorems are about those functions. Compression, checksums, hashes and the
chunk codecs are fields of one record, `Primitives`. The theorems assume of them only that
decompression undoes compression and that the fingerprint table decodes to what was encoded
(`Lawful`). Where a theorem needs a hash to be injective, it asks that the strings it names do
not collide, and says which they are.

Four statements are not what the code's own comments suggest, and are proved as they are:

- The patch decoder budgets 22 bytes per replacement while the encoder writes 20. Decoding an
  encoded patch works if and only if the payloads total at least twice the replacement count
  (`PatchCodec.RoundTripExactly`); one empty replacement is rejected
  (`PatchCodec.EmptyPayloadRejected`).
- A patch keeps the base's minor version in the header and stamps the current one in the
  footer, which the reader demands to be equal. The patched file opens exactly for minor
  version 0 and decodable new metadata (`Patched.PatchOpensExactly`); `Consistency.PatchedBase`
  is a concrete file of version 1 that opens and, patched, does not.
- Averaging levels are right for every chunk set if and only if the chunk size is even
  (`LodPyramid.AveragesExactlyEven`); for an odd size the chunks of a concrete raster are averaged wrongly
  (`LodPyramid.OddFails`).
- `fetchAll` with a limit of zero never ends, since every page is empty and none is short; it
  ends exactly when the limit is at least one or nothing is to be read
  (`SocketClient.EndsExactly`).

## Model

| member | source | states |
|---|---|---|
| Bytes.WordRoundTrip | crates/map-format/src/bytes.rs:31-150 | Reading back a little-endian field of any width gives the value that was written, for every value the width can hold. |
| Bytes.WordInverse | crates/map-format/src/bytes.rs:31-78 | Every byte string of a width is the encoding of exactly one in-range value: decode then encode is the identity. |
| Bytes.Align8 | crates/map-format/src/writer.rs:593-595 | The aligned address is the only multiple of eight in [v, v + 8). |
| Layout.Unpacked | crates/map-format/src/bytes.rs:86-165 | Fields put one after another into a buffer at disjoint places all read back unchanged, in any order and number. |
| Layout.PutSlice | crates/map-format/src/bytes.rs:144-150 | The in-place slice write changes exactly the named range of the buffer. |
| Layout.PackInPlace | crates/map-format/src/header.rs:192-226 | The in-place field loop leaves the same buffer as the packing function the round trips are proved about. |
| Layout.ParseFlatten | crates/map-format/src/directory.rs:220-245 | A run of fixed-size records written end to end parses back to exactly the same list, for every record type whose own codec round-trips. |
| Records.RankIsLexicographic | crates/map-format/src/directory.rs:81-83 | Comparing two keys as one number is comparing (layer, level, chunk) lexicographically, and equal ranks mean equal keys. |
| Records.RecordRoundTrip | crates/map-format/src/directory.rs:86-125 | Every directory record decodes from its bytes to itself. |
| Records.NodeRoundTrip | crates/map-format/src/quadtree.rs:145-175 | Every quadtree node decodes from its bytes to itself. |
| Records.DescRoundTrip | crates/map-format/src/layer.rs:270-307 | Every layer descriptor decodes from its bytes to itself, enumerations included; fingerprints rely on this injectivity. |
| Records.DescOf | crates/map-format/src/reader.rs:415-417 | A lookup gives a registered descriptor with the wanted id, and gives none only when no descriptor has that id. |
| Records.HeaderRoundTrip | crates/map-format/src/header.rs:192-286 | Every header of the supported major version decodes from its 128 bytes to itself. |
| Records.FooterRoundTrip | crates/map-format/src/footer.rs:95-153 | Every footer of the supported major version decodes from its 64 bytes to itself. |
| Records.FooterSplit | crates/map-format/src/footer.rs:95-163 | Setting the file hash changes the last sixteen footer bytes only, so the bytes that are hashed do not depend on the hash. |
| Records.TlvRoundTrip | crates/map-format/src/tlv/mod.rs:176-205 | A block of tagged records whose values fit their length fields decodes to the same records in the same order. |
| Records.TlvSetGet | crates/map-format/src/tlv/mod.rs:124-142 | Setting a tag changes the value read for that tag and for no other, and keeps the block encodable. |
| Records.LayerTableRoundTrip | crates/map-format/src/tlv/value.rs:75-100 | A layer table of up to 65535 descriptors decodes to itself. |
| OnDisk.PackedIsJoined | crates/map-format/src/bytes.rs:31-150 | A packed buffer is its abutting fields one after another, lowest byte first, and zeros to the end. |
| OnDisk.RecordOnDisk | crates/map-format/src/directory.rs:84-98 | A directory record is chunk, layer, level, codec, offset, two lengths, checksum and flags, in that order and those widths. |
| OnDisk.NodeOnDisk | crates/map-format/src/quadtree.rs:145-154 | A skeleton node is its key, flags, depth, tile reference, mean and maximum in that order. |
| OnDisk.DescOnDisk | crates/map-format/src/layer.rs:270-281 | A layer descriptor is its fifteen bytes of fields in order and nine zeros. |
| OnDisk.HeaderOnDisk | crates/map-format/src/header.rs:192-226 | The header is its fields in the documented order, the checksum of those hundred bytes, and 24 zeros. |
| OnDisk.FooterOnDisk | crates/map-format/src/footer.rs:94-116 | The footer is its magic, versions, flags, directory address, counts, length and hash in that order. |
| Directory.Find | crates/map-format/src/directory.rs:155-162 | A found record is in the directory and has the wanted key; nothing is found only when no record has it. |
| Directory.UpsertIsMapUpdate | crates/map-format/src/directory.rs:199-209 | On a strictly ordered directory an upsert keeps the strict order and is the update of one key of a finite map; every other key reads as before. |
| Directory.RemoveIsMapRemoval | crates/map-format/src/directory.rs:211-217 | A removal keeps the strict order and removes one key of the map and no other. |
| Directory.HistoryIsMap | crates/map-format/src/directory.rs:131-217 | After any history of upserts and removals the directory is strictly ordered and each key reads the last word said about it. |
| Directory.SelectedSlice | crates/map-format/src/directory.rs:164-174 | When a predicate holds exactly on a range of positions, filtering by it is slicing that range. |
| Directory.ChunkDirectory.OfRecords | crates/map-format/src/directory.rs:131-134 | A directory made from records holds exactly those records, repeats included, in order. |
| Directory.ChunkDirectory.PartitionPoint | crates/map-format/src/directory.rs:155-174 | The binary search returns the boundary: everything before ranks below the bound, everything from there on at or above it. |
| Directory.ChunkDirectory.Search | crates/map-format/src/directory.rs:155-162 | The binary search ends at a record with the key, any of them, or at the place between the smaller and the larger ranks when there is none. |
| Directory.ChunkDirectory.Lookup | crates/map-format/src/directory.rs:155-162 | A record is found exactly when one has the key, and it is one of those; without repeated keys it is the one of the map. |
| Directory.ChunkDirectory.Store | crates/map-format/src/directory.rs:199-209 | The order is kept, repeats or not: one record with the key is replaced, or the new one goes in where no record has it; without repeats this is the map update. |
| Directory.ChunkDirectory.Delete | crates/map-format/src/directory.rs:211-217 | One record with the key goes out and is returned, or nothing changes when none has it; without repeats this is the map removal. |
| Directory.ChunkDirectory.ForLayerLevel | crates/map-format/src/directory.rs:164-174 | The slice between two binary searches is exactly the filter of the directory by layer and level, in order. |
| Fingerprint.SameContentSameString | crates/map-format/src/fingerprint.rs:61-79 | The hashed string of a layer depends on the set of live (level, chunk, crc) triples alone: record order, offsets and tombstones never matter. |
| Fingerprint.SameStringSameContent | crates/map-format/src/fingerprint.rs:61-79 | Two equal hashed strings come from equal descriptors and equal sets of live triples, so hashing loses nothing by its encoding. |
| Fingerprint.CombinedInjective | crates/map-format/src/fingerprint.rs:80-94 | The combined string of source fingerprints determines their multiset. |
| Fingerprint.UntouchedStaysValid | crates/map-format/src/reader.rs:742-823 | A valid derived layer stays valid under every change that leaves the live content of its direct sources alone; no assumption on the hash. |
| Fingerprint.StaleExactly | crates/map-format/src/reader.rs:742-823 | With no collision among the strings involved, a valid derived layer remains valid if and only if the live content of every direct source is unchanged. |
| Fingerprint.ValidMeansUnchanged | crates/map-format/src/fingerprint.rs:130-163 | A layer that verifies against two directories with one recorded entry has the same source content in both. |
| Fingerprint.LibraryOutlivesRoadmap | crates/map-format/src/reader.rs:742-774 | Staleness is by direct source only: changing the elevation makes the roadmap stale while the path library built on that roadmap still verifies. |
| SourcesByName.DerivedByNumber | crates/map-format/src/layer.rs:75-77 | The layers that must carry a fingerprint are those with the five listed numbers and the whole 0x4000 range. |
| SourcesByName.SourcesAreTable | crates/map-format/src/reader.rs:742-774 | The list of direct sources holds a layer exactly when it is registered and the table of dependencies, by number, has the pair. |
| SourcesByName.StaleByTable | crates/map-format/src/reader.rs:742-823 | With no collision among the strings involved, a served layer is refused after an edit if and only if some registered layer that the table names for it was edited. |
| SourcesByName.TerrainGoesStale | crates/map-format/src/reader.rs:752-753 | Slope goes stale exactly when the elevation was edited and the distance field exactly when the forbidden cells were. |
| SourcesByName.CostCacheGoesStale | crates/map-format/src/reader.rs:764-768 | A cost cache goes stale exactly when the forbidden cells or some resistance feature was edited. |
| SourcesByName.UnlistedNeverStale | crates/map-format/src/reader.rs:738-741 | A derived layer without a source list is served after an edit exactly when it was before. |
| Builder.StoredIsLast | crates/map-format/src/writer.rs:377-405 | The directory a writer builds from a record list is strictly ordered and holds the last record given for each key. |
| Builder.LastRecordsExact | crates/map-format/src/builder.rs:671-690 | The builder's backwards scan with a seen-set keeps exactly the last record of each key of a layer, once each. |
| Builder.SameLayerString | crates/map-format/src/builder.rs:728-742 | Builder and reader hash the same string for a layer: the builder's last records and the directory's upsert result agree even with repeated chunk keys. |
| Builder.SameSources | crates/map-format/src/builder.rs:793-818 | The builder's and the reader's source layers agree as a multiset even though the two list layers in different orders. |
| Builder.FreshBuildVerifies | crates/map-format/src/builder.rs:728-784 | Every derived layer of a freshly built map verifies in the reader, whatever the layer order, repeated chunk keys and missing sources. |
| FreshBuild.BuiltState | crates/map-format/src/builder.rs:591-668 | After all the calls a build makes on the writer, the writer holds its layers, its skeleton and its fingerprint table, and its directory stores the same chunks as the builder recorded, offsets apart. |
| FreshBuild.BuiltMapOpens | crates/map-format/src/builder.rs:591-784 | For every build whose sizes fit, the written file opens exactly when its grid is valid and no two skeleton nodes share a key; opened, it has the build's layers and skeleton, and no derived layer is stale. |
| FreshBuild.PartitionedMapOpens | crates/map-format/src/builder.rs:591-668 | A build whose skeleton is the partition's own opens exactly when its grid is valid, with that skeleton in its own order. |
| FreshBuild.BuiltMapLocates | crates/map-format/src/reader.rs:438-447 | From the proxy grid through the file to the lookup: in the opened map every point of the map is located at the node of the emitted square over its cell, down to the depth asked for. |
| Reader.SealCovers | crates/map-format/src/footer.rs:155-163 | In a sealed image the header comes first, the footer last, and the hashed range is everything between except the hash itself. |
| Reader.SealedFrameOpens | crates/map-format/src/reader.rs:242-282 | A sealed image passes every frame check of the reader exactly when header and footer name the same minor version; the hash check then succeeds. |
| Reader.SkeletonReads | crates/map-format/src/reader.rs:306-317 | Nodes placed at the computed address are read and built as if given directly. |
| Reader.BodyOpens | crates/map-format/src/reader.rs:285-350 | A body that holds a metadata block, an ordered directory and a skeleton where the header says opens to exactly those three. |
| Reader.UncheckedExactly | crates/map-format/src/reader.rs:242-350 | Opening without the hash check admits, beyond the images opened with it, exactly those whose hash alone is wrong, and shows every other image the same. |
| Reader.SkeletonAccepted | crates/map-format/src/quadtree.rs:187-197 | A skeleton builds if and only if no two nodes share a key, and then it is the sorted list of the nodes. |
| Tampering.OpenedBytes | crates/map-format/src/reader.rs:242-282 | What the reader accepts, in raw bytes: both magics and versions, the header checksum over the first hundred bytes, the footer address, the length, and a stored hash equal to the hash of the header followed by the digest of the body. |
| Tampering.ChangesAreRefused | crates/map-format/src/reader.rs:274-281 | If an image opens and another of its length with the same last sixteen bytes differs from it anywhere, and the hash collides neither on the bodies nor on the two hashed strings, the other is refused. |
| Tampering.ByteOf | crates/map-format/src/bytes.rs:31-150 | Byte `i` of a little-endian word is its `i`-th digit to base 256. |
| Tampering.BaseHashIsPrefix | crates/map-format/src/footer.rs:199-203 | The hash by which a patch names its base is the first eight bytes of the stored one. |
| StoredChunks.DecodedExactly | crates/map-format/src/reader.rs:548-608 | Stored bytes are handed to the decoder exactly when level, length and size limit fit the layer's shape, and then with that shape; otherwise they are refused. |
| StoredChunks.ServedIsVouched | crates/map-format/src/reader.rs:498-608 | A payload is served only for a layer that is registered and not stale, from a live record whose bytes lie in the file and pass the checksum, and is what those bytes decode to. |
| StoredChunks.BadBytesRefused | crates/map-format/src/reader.rs:498-608 | Stored bytes that fail their record's checksum are refused, whatever they decode to. |
| StoredChunks.TombstoneReadsAbsent | crates/map-format/src/reader.rs:498-520 | A record marked as a tombstone reads as no chunk. |
| WriterModel.FindAfterWrite | crates/map-format/src/writer.rs:348-405 | A chunk write changes the directory at its key only, to a record whose offset is the sink's position before the write. |
| WriterModel.RunInv | crates/map-format/src/writer.rs:348-483 | After any sequence of writer calls, rejected ones included, the sink is a blank header followed by exactly the hashed bytes, the directory is ordered and every key's record addresses its last accepted payload. |
| Writer.MapWriter.constructor | crates/map-format/src/writer.rs:119-143 | A new writer is in the initial state of the model with an empty directory of its own. |
| Writer.MapWriter.PushExtMeta | crates/map-format/src/writer.rs:183-188 | The call performs the model's step on the extension area, or refuses. |
| Writer.MapWriter.RegisterLayer | crates/map-format/src/writer.rs:255-287 | The call performs the model's step: replace or append a descriptor, or refuse. |
| Writer.MapWriter.ReplaceSkeleton | crates/map-format/src/writer.rs:289-300 | The call performs the model's step on the skeleton, or refuses. |
| Writer.MapWriter.WritePrologue | crates/map-format/src/writer.rs:424-483 | The prologue is written once; a second call changes nothing. |
| Writer.MapWriter.WriteEncodedChunk | crates/map-format/src/writer.rs:348-405 | The call writes the prologue if needed, then payload and directory record, and reports sizes that do not fit only after the bytes are in the file and the hash, as the code does. |
| Writer.MapWriter.Finish | crates/map-format/src/writer.rs:486-557 | The written image is the sealed image of the state, and the hasher has consumed exactly the image between the header and the last sixteen bytes. |
| Writer.SealedBySink | crates/map-format/src/writer.rs:508-557 | Writing directory, half footer and hash, then rewinding and overwriting the header, leaves the same bytes as sealing the image at once. |
| Written.WriteThenOpen | crates/map-format/src/writer.rs:348-557 | For every run of writer calls, the reader opens the finished file exactly when its skeleton has no repeated key, its grid is valid and its fingerprint table, if one is needed, decodes, and then sees the same layers, metadata, directory and sorted skeleton. |
| Written.HashCoversBody | crates/map-format/src/writer.rs:486-557 | For every run, the hashed text is the file from the header's end to sixteen bytes before the end. |
| Written.ReadsLastWrite | crates/map-format/src/reader.rs:498-608 | For every run and every key, the opened file serves the payload of the last accepted write of that key, and nothing for a key never written. |
| Written.OpenedWellFormed | crates/map-format/src/reader.rs:242-350 | A written file that opens satisfies the invariant the patch theorems start from. |
| WrittenHeader.FlagBits | crates/map-format/src/writer.rs:562-581 | Each of the five flag bits is set exactly when a record of its layer is stored, the dictionary bit when its tag is set, and no other bit is. |
| WrittenHeader.HeaderTells | crates/map-format/src/writer.rs:486-557 | The opened header holds every field of the specification under its own name, the number of layers, and flags that agree with what is stored; the footer's counts, addresses and length are those of the file. |
| WriterCalls.AcceptedExactly | crates/map-format/src/writer.rs:255-280 | A descriptor is taken exactly when it has a channel and, for raster and bit layers, a chunk of it is at most 256 MiB by the size written out there. |
| WriterCalls.SetDescIsUpdate | crates/map-format/src/writer.rs:281-284 | Registering a descriptor changes what its id finds and nothing else, and grows the table by one exactly for a new id. |
| WriterCalls.RunTold | crates/map-format/src/writer.rs:169-300 | After any run of calls the writer holds, by the calls alone, the last value per tag, the last accepted descriptor per layer, the last skeleton and the extension records in order, of each those before the first chunk. |
| WriterCalls.OpenedByCalls | crates/map-format/src/writer.rs:424-557 | The finished file, opened, shows just that: metadata, layers, skeleton and an extension area that parses to the pushed records. |
| StoredChunks.PayloadRoundTrip | crates/map-format/src/writer.rs:322-403 | With codecs that decode what they encode, a payload encoded for its layer and written last under its key is what reading that key of the finished file returns. |
| Patching.AppendPayloads | crates/map-format/src/patch.rs:210-229 | The loop that grows the image and the directory together computes the appended body and leaves the header bytes alone. |
| Patching.RewriteMeta | crates/map-format/src/patch.rs:237-270 | The in-place re-emission of metadata, extension area, padding and skeleton gives the modelled body and addresses. |
| Patching.SealInPlace | crates/map-format/src/patch.rs:272-311 | Growing the buffer, hashing it and overwriting its header in place gives the sealed image. |
| Patching.ApplyInPlace | crates/map-format/src/patch.rs:197-312 | The imperative patch computes the patch function on every input, malformed base included. |
| Patched.AppliesExactly | crates/map-format/src/patch.rs:197-208 | Applying succeeds if and only if the patch names this base's hash and every replaced layer is registered and not derived. |
| Patched.PatchOpensExactly | crates/map-format/src/patch.rs:279-291 | The patched image opens if and only if the base has minor version 0 and the new metadata decodes; opened, it has the new directory and metadata and the same skeleton, found at its recomputed address. |
| Versions.ReversionedOpens | crates/map-format/src/reader.rs:242-350 | A file laid out by the writer under any minor version that header and footer agree on opens to the same contents and is a well-formed base. |
| Versions.PatchBreaksOtherVersions | crates/map-format/src/patch.rs:279-291 | Every patch of such a file with a minor version other than 0 gives a file that does not open, although its base opened. |
| Patched.KeptMetaReadable | crates/map-format/src/patch.rs:237-243 | A patch that sets neither the layer nor the fingerprint table leaves both as they were and the metadata decodable, whatever other tags it sets. |
| Patched.PatchKeepsWellFormed | crates/map-format/src/patch.rs:197-312 | A patched image that opens is well formed again, so patches can be applied one after another. |
| Patched.PatchedReads | crates/map-format/src/patch.rs:216-229 | Each key named by the patch reads its last replacement's payload; every other key keeps its record and its exact stored bytes. |
| Patched.PatchOnlyAppends | crates/map-format/src/patch.rs:210-213 | Between the header and the base's footer no byte of the image moves or changes. |
| Patched.UnnamedChunksUnchanged | crates/map-format/src/reader.rs:498-608 | Through the whole reader, an unnamed chunk of a source layer decodes to the same result after any patch that leaves the layer table, the fingerprint table and the compression dictionary alone. |
| Patched.PatchStalesExactly | crates/map-format/src/reader.rs:358-374 | Opening an image patched without touching the layer and fingerprint tables marks a previously valid derived layer stale if and only if the patch changed the live content of one of its direct sources; other metadata may change and the skeleton move. |
| Patched.ChainReads | crates/map-format/src/patch.rs:197-312 | Along any chain of patches the image stays well formed, and each key reads its last replacement anywhere in the chain, or the original bytes if none names it. |
| PatchedHeader.PatchedHeaderTells | crates/map-format/src/patch.rs:279-301 | The opened patched map keeps every field of the base header that is not an address or a count, and counts its own records and layers as the code does, the layers as they were before a metadata change. |
| PatchedHeader.ExtensionKept | crates/map-format/src/patch.rs:252-264 | The extension area of the patched map holds the base's bytes, whether or not the metadata was rewritten before it. |
| Cache.Added | crates/map-format/src/reader.rs:178-184 | Adding a decoded payload keeps the queue repeat-free and equal to the set of cached keys. |
| Cache.MapReader.Clear | crates/map-format/src/reader.rs:192-195 | Clearing empties both queue and entries and keeps the cache consistent. |
| Cache.MapReader.Insert | crates/map-format/src/reader.rs:178-190 | Insertion keeps queue and entries matching and within capacity, and evicts oldest first; a key already cached keeps its place. |
| Cache.MapReader.Payload | crates/map-format/src/reader.rs:498-608 | Whatever reads and clears came before, a cached read answers what an uncached read of the image answers. |
| PatchCodec.RoundTripExactly | crates/map-format/src/patch.rs:107-194 | An encodable patch survives encoding and decoding if and only if its payloads total at least twice the replacement count; otherwise decoding reports truncation. |
| PatchCodec.RoundTripWith | crates/map-format/src/patch.rs:149-163 | The same for any per-record budget at or above the true twenty bytes: the round trip holds exactly when the payloads make up the excess. |
| PatchCodec.TwentyAlwaysFits | crates/map-format/src/patch.rs:118-126 | With the header size the encoder really writes, every encodable patch round-trips. |
| PatchCodec.EmptyPayloadRejected | crates/map-format/src/patch.rs:152-163 | A concrete failing family: a patch with one empty replacement is rejected by the decoder. |
| PatchCodec.DecodeStream | crates/map-format/src/patch.rs:134-194 | The sequential reader accepts and rejects the same strings, with the same result, as the decoding function. |
| PatchCodec.ReadReplacement | crates/map-format/src/patch.rs:167-184 | One sequential record read returns the parsed record and leaves the cursor after it, or reports the same error. |
| PatchCodec.ByteReader.ReadBytes | crates/map-format/src/bytes.rs:280-291 | A read either returns the next n bytes and advances, or reports truncation and leaves the cursor where it was. |
| PatchCodec.ByteReader.ReadWord | crates/map-format/src/bytes.rs:211-264 | An integer read returns the little-endian value and advances by its width, or fails without moving. |
| Consistency.LawsCanHold | crates/map-format/src/codec/entropy.rs:9-68 | The laws assumed of compression, hashing and metadata codecs hold of an explicit implementation, so the theorems about files are not vacuous. |
| Consistency.EmptyMapOpens | crates/map-format/src/writer.rs:486-557 | Under that implementation, for every specification, the file with no chunk is representable and opens. |
| Consistency.PatchedBase | crates/map-format/src/patch.rs:197-312 | A concrete file with one layer, under every minor version, is a base to which a one-chunk patch applies; the result opens for version 0 and for no other. |
| Grid.FourNeighbours | web/src/render/buildings.ts:542-548 | The cells one step away inside the mask are exactly those the four offset-and-bound tests produce; no step wraps round a row end. |
| Rings.BoundaryExactly | web/src/render/buildings.ts:374-381 | The collected directed edges are exactly those with a member on one side and none on the other, each once. |
| Rings.CornersBalance | web/src/render/buildings.ts:374-381 | At every lattice corner as many boundary edges leave as arrive. |
| Rings.NetAfter | web/src/render/buildings.ts:391-395 | Removing an edge shifts the balance at its two ends only, by one each way. |
| Rings.NeverStuck | web/src/render/buildings.ts:389-404 | A walk that has not returned to its start always has an unused edge to follow. |
| Rings.RingsAreLong | web/src/render/buildings.ts:405-407 | A closed walk of boundary edges has at least three corners, so the length filter drops nothing. |
| RingTrace.MemberByCorner | web/src/render/buildings.ts:362-363 | The bounds-and-set membership test of a cell agrees with membership of its corner key, even one step outside the grid. |
| RingTrace.CollectCell | web/src/render/buildings.ts:375-380 | One cell's turn adds to the edge map precisely the sides facing non-members. |
| RingTrace.CollectEdges | web/src/render/buildings.ts:364-381 | The edge map lists the component's boundary edges with their multiplicity. |
| RingTrace.Shift | web/src/render/buildings.ts:391-395 | Taking the first end at a corner removes exactly that edge from the map, and the corner with its last edge. |
| RingTrace.Walk | web/src/render/buildings.ts:388-404 | One walk returns to where it began, uses each of its edges once, removes them from the map and no others, and leaves the rest balanced. |
| RingTrace.ComponentRings | web/src/render/buildings.ts:356-410 | Tracing ends; the rings use every boundary edge exactly once, none is shorter than three, and twice their signed areas is twice the cell count. |
| RingArea.CellArea | web/src/render/buildings.ts:374-381 | A cell's four sides, walked in their order, enclose area one. |
| RingArea.BoundaryTotal | web/src/render/buildings.ts:374-381 | The cross products of all boundary edges sum to twice the cells, inner sides cancelling in pairs. |
| RingArea.RingAreas | web/src/render/buildings.ts:356-410 | Any rings that use the boundary edges once enclose, holes counted negatively, exactly the number of cells. |
| Dilation.NearStep | web/src/render/buildings.ts:500-519 | A cell is within n + 1 of a set cell exactly when one of its nine neighbours, itself counted, is within n. |
| Dilation.Dilate | web/src/render/buildings.ts:500-519 | One pass sets exactly the cells that are set or touch a set cell in one of eight directions, and no cell wraps round a row end. |
| Dilation.Grow | web/src/render/buildings.ts:102-106 | After n passes exactly the cells within n columns and n rows of a cell set at the start are set. |
| Flood.BorderStack | web/src/render/buildings.ts:530-536 | The initial stack holds exactly the border cells of the mask. |
| Flood.Neighbours | web/src/render/buildings.ts:543-548 | The pushed cells are exactly the in-mask neighbours. |
| Flood.AllFound | web/src/render/buildings.ts:537-549 | When the stack is empty, the marked cells are exactly the empty cells joined to the border by empty cells. |
| Flood.FillHoles | web/src/render/buildings.ts:528-555 | The loop ends, and a cell is empty afterwards exactly when it was empty and an empty 4-connected path led from it to the border. |
| Flood.FillUnmarked | web/src/render/buildings.ts:550-554 | The last pass fills every empty unmarked cell and touches no other. |
| Flood.BorderFacesOut | web/src/render/buildings.ts:530-536 | A cell is on the border exactly when a place next to it lies off the mask. |
| Components.MaximalOnce | web/src/render/buildings.ts:110-146 | Two maximal connected sets that share a cell are the same set. |
| Components.Offer | web/src/render/buildings.ts:132-141 | Offering one neighbour keeps the flood invariant and makes progress whether the neighbour is out of bounds, empty, labelled or new. |
| Components.OfferAll | web/src/render/buildings.ts:126-142 | After the four offers every set neighbour of the current cell is labelled. |
| Components.FloodIsMaximal | web/src/render/buildings.ts:121-143 | A flood whose stack ran empty has collected one maximal connected set, repeat-free and apart from everything labelled before. |
| Components.FloodFrom | web/src/render/buildings.ts:116-143 | The stack loop ends with exactly the maximal 4-connected set of the start cell labelled, each cell collected once. |
| Components.AllGathered | web/src/render/buildings.ts:113-146 | When every set cell is labelled, a maximal set is listed if and only if it has at least nine cells. |
| Components.FindComponents | web/src/render/buildings.ts:110-146 | The result is exactly the maximal 4-connected sets of at least nine cells, pairwise disjoint. |
| Buildings.KeptIsComponent | web/src/render/buildings.ts:110-146 | A kept set is a legal input of ring tracing: in the grid and without repeats. |
| Buildings.Fill | web/src/render/buildings.ts:107-107 | On a mask the filling step meets the hole-filling specification. |
| Buildings.OutlineAll | web/src/render/buildings.ts:159-160 | Every component gets rings that use its boundary once and enclose its cell count. |
| Buildings.Footprints | web/src/render/buildings.ts:107-160 | Filling, labelling and tracing together: the outlines belong to exactly the large maximal sets of the filled mask and enclose exactly their cells. |
| Buildings.FromMask | web/src/render/buildings.ts:102-160 | From the building cells of a chunk to its outlines: grown by exactly the margin, holes filled, large maximal sets kept, each enclosed by its rings. |
| EarClip.FirstEar | web/src/render/buildings.ts:270-279 | The scan stops at the first ear, or at the end when there is none. |
| EarClip.EarTest | web/src/render/buildings.ts:302-326 | The loop over the remaining corners decides the ear condition: convex, and no other corner inside the triangle. |
| EarClip.LoopCut | web/src/render/buildings.ts:280-281 | Cutting a corner takes exactly its triangle's circulation out of the polygon's. |
| EarClip.ClipSum | web/src/render/buildings.ts:264-298 | For every antisymmetric edge weight, the triangles' circulations sum to the ring's, whether by clipping or by the fan. |
| EarClip.FanSum | web/src/render/buildings.ts:293-297 | The same for the fan alone, over each prefix of the corners. |
| EarClip.ClipCount | web/src/render/buildings.ts:264-298 | An n-corner ring always gives n - 2 triangles, degenerate rings included. |
| EarClip.ClipJoined | web/src/render/buildings.ts:264-298 | Each triangle joins three different corners of the ring. |
| EarClip.RoofCovers | web/src/render/buildings.ts:257-299 | n - 2 triangles over the ring's corners whose signed areas sum to the ring's signed area, on both paths. |
| EarClip.EarsAreClipped | web/src/render/buildings.ts:264-298 | Each triangle the clipping loop emits is a corner left at that moment with its neighbours, turns the positive way and contains no other corner left; what follows is the last three corners, or a fan over corners none of which is an ear. |
| EarClip.RoofTurns | web/src/render/buildings.ts:264-298 | When the ears do not run out, every triangle but the last turns the positive way, and the last does exactly when the ears take up less than the ring's area. |
| EarClip.BowTie | web/src/render/buildings.ts:291-292 | A concrete ring that crosses itself, whose last triangle turns the other way: it is pushed without an ear test. |
| EarClip.SidesOnce | web/src/render/buildings.ts:257-299 | Each ring side is used once in its direction and every other pair of corners equally often both ways, so every inner edge cancels. |
| EarClip.Triangulate | web/src/render/buildings.ts:257-299 | The imperative loop computes that triangulation, gives nothing for fewer than three corners, and the guard counter is never what stops it. |
| EarMeaning.InTriangleExactly | web/src/render/buildings.ts:328-346 | For a triangle with a positive turn, the test holds exactly of the averages of its three corners with no negative weight. |
| Socket.FindPending | web/src/api/ws.ts:333-340 | The first pending request with the frame's channel and expected offset, in insertion order, or none. |
| Socket.FrameReceived | web/src/api/ws.ts:277-330 | A request's next frame either completes it, and then it holds exactly the wanted slice, or leaves it waiting for the next frame of the same reply. |
| Socket.PastTheEnd | crates/service/src/facade/ws.rs:243-284 | A request at or past the channel's end is answered by a single empty frame. |
| SocketSystem.ServeKeepsFuture | crates/service/src/facade/ws.rs:218-285 | Serving one request does not change the sequence of frames the client is still going to see: replies come whole and in request order. |
| SocketSystem.OwnFrame | web/src/api/ws.ts:277-306 | A frame of the oldest open reply keeps the frames still to come matched to the pending requests, and settles a request only with the right items. |
| SocketSystem.LeftOverFrame | web/src/api/ws.ts:278-281 | A trailing empty frame whose request has been settled already is ignored or settles an equal request correctly; the matching survives. |
| SocketSystem.AcceptMatched | web/src/api/ws.ts:277-306 | Every frame of the wire keeps the matching and settles a request only with its own slice, even with overlapping requests outstanding. |
| SocketRuns.FetchNumbered | web/src/api/ws.ts:157-184 | A fetch gives its promise one fate: rejected at once, or pending under a key no other pending request has. |
| SocketRuns.CloseNumbered | web/src/api/ws.ts:216-225 | Closing moves every pending promise to settled, each once. |
| SocketRuns.AcceptNumbered | web/src/api/ws.ts:277-306 | A frame settles at most one promise and never one settled before. |
| SocketRuns.StepGood | web/src/api/ws.ts:157-306 | Every step of client, server or wire keeps the system invariant. |
| SocketRuns.RunGood | web/src/api/ws.ts:157-306 | The invariant holds after every run of allowed steps. |
| SocketRuns.NothingWaits | web/src/api/ws.ts:316-330 | With no frame left to come no request is pending. |
| SocketRuns.FetchesEndRight | web/src/api/ws.ts:157-349 | In every run on one connection each promise settles at most once and a resolved one with exactly its slice of the channel; once the wire is drained or the socket closed every promise has settled exactly once. |
| SocketRuns.FetchesCanEnd | web/src/api/ws.ts:157-349 | From every reachable connected state, serving and delivering alone lead to a state with every promise settled. |
| SocketCalls.FetchExactly | web/src/api/ws.ts:157-184 | A call is rejected as closed, rejected as doubled exactly when a fetch of its channel from its offset is pending, or sent or queued and pending. |
| SocketCalls.RefusedWhilePending | web/src/api/ws.ts:163-167 | In every run a call refused as doubled was refused by its own call step, while a fetch of the same channel and the same offset was pending. |
| SocketCalls.RefusedHasEarlier | web/src/api/ws.ts:163-167 | A refused call has an earlier call of the same channel and offset before it. |
| SocketCalls.DifferentFetchesResolve | web/src/api/ws.ts:157-349 | In a run without a close whose requests differ pairwise in channel or offset, once the wire is drained every promise is resolved. |
| SocketCalls.UntotalledEnds | web/src/api/ws.ts:308-330 | A first frame that reports no channel length is taken as the whole reply. |
| SocketCalls.ShortFrameEnds | web/src/api/ws.ts:308-330 | An empty frame ends a reply, and so does one shorter than the first frame that held items. |
| SocketCalls.FullFrameEnds | web/src/api/ws.ts:308-330 | Any other frame of a channel of known length ends the reply exactly when the request is filled or the channel's end is reached. |
| SocketClient.ClosesExactly | web/src/api/ws.ts:352-370 | Over any history of drops and messages the socket gives up if and only if one drop more than the retry budget follow each other with no message between, drops before the history counted in. |
| SocketClient.JobSocket.constructor | web/src/api/ws.ts:90-107 | A new socket is the model's initial client. |
| SocketClient.JobSocket.FetchSlice | web/src/api/ws.ts:157-184 | The call performs the model's fetch: closed or doubled requests are rejected, others pend with the capped limit. |
| SocketClient.JobSocket.AcceptChunk | web/src/api/ws.ts:277-306 | The call performs the model's frame step on the pending table. |
| SocketClient.JobSocket.CloseSession | web/src/api/ws.ts:216-225 | The call performs the model's close; a second close changes nothing. |
| SocketClient.JobSocket.OnOpen | web/src/api/ws.ts:236-245 | The queue is sent in order and emptied. |
| SocketClient.JobSocket.OnMessage | web/src/api/ws.ts:246-255 | The first message of a connection resets the retry count, and every message is accepted. |
| SocketClient.JobSocket.OnDrop | web/src/api/ws.ts:256-259 | A drop leaves pending requests alone unless it exhausts the budget, and then closes the session. |
| SocketClient.FetchAll | web/src/api/ws.ts:193-213 | Where it ends, the walk returns the channel's items up to the point it can reach, and the whole channel exactly when the channel ends before that point. |
| SocketClient.EndsExactly | web/src/api/ws.ts:193-213 | The walk ends if and only if the limit is at least one or nothing is to be read. |
| SocketCalls.FirstDropCloses | web/src/api/ws.ts:352-370 | With reconnecting turned off the first drop closes the session. |
| SocketCalls.NoBudgetNeverCloses | web/src/api/ws.ts:352-370 | Without a retry budget no history of drops and messages closes it. |
| MortonCodes.DecodeEncode | crates/map-format/src/geometry.rs:114-132 | Splitting an interleaved code gives back both coordinates, for all naturals. |
| MortonCodes.EncodeDecode | crates/map-format/src/geometry.rs:114-132 | Interleaving the halves of any code gives the code back. |
| MortonCodes.InterleaveBound | crates/map-format/src/geometry.rs:114-121 | A code fits 2n bits if and only if both coordinates fit n bits. |
| MortonCodes.EncodeLoop | crates/map-format/src/geometry.rs:114-121 | The bit loop interleaves the low bits of its arguments. |
| MortonCodes.Encode | crates/map-format/src/geometry.rs:199-206 | For coordinates within the width the loop interleaves them, inside twice the width. |
| MortonCodes.DecodeLoop | crates/map-format/src/geometry.rs:124-132 | The decoding loop inverts interleaving and its results fit the width. |
| NodeKeys.KeyValue | crates/map-format/src/geometry.rs:152-155 | The `or` of the marker bit and the code is their sum, the code lying below the marker. |
| NodeKeys.KeyRoundTrip | crates/map-format/src/geometry.rs:158-173 | Depth and coordinates are recovered from every key. |
| NodeKeys.KeysInjective | crates/map-format/src/geometry.rs:152-155 | Two nodes with the same key are the same node, at whatever depths. |
| NodeKeys.KeyExactly | crates/map-format/src/geometry.rs:158-173 | A non-zero 64-bit word is a node key if and only if its leading one stands at an even position. |
| NodeKeys.ChildKeys | crates/map-format/src/geometry.rs:186-196 | The child of key k in quadrant q is 4k + q, at twice the coordinates plus the quadrant's offsets. |
| NodeKeys.ParentKey | crates/map-format/src/geometry.rs:176-183 | The parent of key k is k / 4, at half the coordinates. |
| NodeKeys.ChildOfParent | crates/map-format/src/geometry.rs:176-196 | Going to the parent and back by the key's last two bits returns the key. |
| Quadtree.SideHoldsMap | crates/map-format/src/quadtree.rs:56-66 | The skeleton's square is positive and holds the map exactly when the map is no wider than 2^32 cells, where the clamp sets in. |
| Quadtree.SideInCells | crates/map-format/src/quadtree.rs:60-65 | The side is the power of two above the longer axis's cell count, times the resolution. |
| Quadtree.Get | crates/map-format/src/quadtree.rs:227-232 | The binary search finds what a linear search would. |
| Quadtree.OneCell | crates/map-format/src/quadtree.rs:238-268 | The computed cell index is the only cell of that depth which holds the point, the closing edge included. |
| Quadtree.OverByKey | crates/map-format/src/quadtree.rs:252-266 | A node has the key computed for a point and depth if and only if it lies over the point at that depth. |
| Quadtree.ClimbFindsDeepest | crates/map-format/src/quadtree.rs:238-268 | The climb from the depth limit returns a node that lies over the point and is deepest within the limit, and nothing only when no node within the limit lies over it. |
| Quadtree.DeepestIsUnique | crates/map-format/src/quadtree.rs:238-268 | On a built skeleton that deepest node is unique. |
| Quadtree.Locate | crates/map-format/src/quadtree.rs:238-268 | The lookup is that climb on the normalised point, with its guards for empty skeletons, flat maps and points outside the square. |
| Quadtree.OverContains | crates/map-format/src/quadtree.rs:131-142 | A node lying over the point has bounds that contain it. |
| Quadtree.MapPointsLookedUp | crates/map-format/src/quadtree.rs:238-268 | Every point of a map within the clamp passes the range guard, so no point of the map is refused. |
| Quadtree.InsideIsOver | crates/map-format/src/quadtree.rs:119-142 | A point inside the bounds of a node whose key is a cell's, off their edges, has the node over it. |
| Partition.SquareDescribed | crates/map-format/src/builder.rs:1109-1130 | The scan's count, maximum and blocked flag say what they should of the square's cells: present, attained and never exceeded, and blocked exactly when one cell is. |
| Partition.SquareSummed | crates/map-format/src/builder.rs:1109-1131 | The count is the number of the square's cells with a value and the sum is the sum over them, in whatever order. |
| Partition.QuarterAligned | crates/map-format/src/builder.rs:1164-1170 | Each quarter of an aligned square is aligned and half as wide. |
| Partition.TileQuarters | crates/map-format/src/builder.rs:1161-1180 | A split hands each of its valued cells to exactly one quarter and none to two. |
| Partition.PartsTile | crates/map-format/src/builder.rs:1095-1181 | Every cell is in at most one square of the recursion, and each valued cell in exactly one square, emitted or abandoned. |
| Partition.ValueAtPlace | crates/map-format/src/builder.rs:1061-1069 | The value of a cell, counted line by line, is its sample of the chosen channel, and none where the data ends before it. |
| Partition.BlockedAtPlace | crates/map-format/src/builder.rs:1078-1088 | Every non-zero strength blocks the cell it is stored for, and no other does. |
| PartitionParts.MergedExactly | crates/map-format/src/builder.rs:1131-1159 | A square is merged if and only if it has a value, its span is within both limits, no value exceeds its mean by more than the threshold, and none of its cells is blocked. |
| PartitionParts.DecidedExactly | crates/map-format/src/builder.rs:1106-1163 | Every verdict by the cells: nothing at all, empty, merged, cut in four, or given up at the bound of span, depth or size. |
| PartitionParts.PartsExactly | crates/map-format/src/builder.rs:1095-1181 | A square is a part if and only if a chain of cuts leads to it, it is not itself cut and it holds a value; it is emitted if and only if it is uniform as above. |
| PartitionParts.ReachedParent | crates/map-format/src/builder.rs:1164-1180 | Every square reached but the first is a quarter of a reached square that was cut. |
| PartitionParts.GivenUpAtBound | crates/map-format/src/builder.rs:1161-1163 | A part is emitted exactly when it is uniform; one that is not spans less than the least size, or is as deep as allowed, or is a single cell; and every part but the root is half the size of a square that was not uniform and not at any of those bounds. |
| PartitionFigures.QuantiseSteps | crates/map-format/src/quadtree.rs:318-324 | A figure is stored as the nearest step of its range, the upper of two equally near, and as the end of the range beyond it. |
| PartitionFigures.QuantiseError | crates/map-format/src/quadtree.rs:306-324 | Within the range a figure reads back within half a step. |
| PartitionFigures.NodeTells | crates/map-format/src/builder.rs:1140-1157 | A node's key and field carry the square's depth, its mean quantises the mean over the square's cells, its maximum the largest value of them, and the drill flag is set exactly when a value exceeds the drill threshold. |
| PartitionNodes.PartsWellPlaced | crates/map-format/src/builder.rs:1095-1181 | Every emitted or abandoned square is aligned in the root with its depth matching its size. |
| PartitionNodes.MergedMeans | crates/map-format/src/builder.rs:1131-1159 | An emitted square is within the size limits, has no value above the mean over its valued cells by more than the threshold, and contains no direction-constrained cell. |
| PartitionNodes.AlignedFits | crates/map-format/src/builder.rs:1140-1144 | The guard on cell indices never drops an aligned square. |
| PartitionNodes.KeyIsSquare | crates/map-format/src/builder.rs:1140-1144 | Aligned squares with the same key are the same square. |
| PartitionNodes.KeysDistinct | crates/map-format/src/builder.rs:1033-1035 | No two nodes of a skeleton have the same key. |
| PartitionNodes.EveryCellOnce | crates/map-format/src/builder.rs:1001-1032 | Over the whole grid: each valued cell in exactly one square, no cell in two. |
| PartitionBuild.Scan | crates/map-format/src/builder.rs:1109-1130 | The nested loops compute the square's statistics. |
| PartitionBuild.Recurse | crates/map-format/src/builder.rs:1095-1181 | The recursion ends and appends exactly the nodes of its merged squares, in order. |
| PartitionBuild.RecurseQuarters | crates/map-format/src/builder.rs:1164-1180 | The four recursive calls append the four quarters' nodes in order. |
| PartitionBuild.DedupKeepsAll | crates/map-format/src/builder.rs:1033-1035 | Removing equal neighbours from a strictly sorted list removes nothing. |
| PartitionBuild.PartitionSkeleton | crates/map-format/src/builder.rs:984-1036 | The result is the list of all emitted nodes by strictly ascending key, so the final deduplication drops none, and the skeleton builder accepts it as it is; an empty grid gives nothing and an absent channel an error. |
| PartitionBuild.OverIsCover | crates/map-format/src/quadtree.rs:131-142 | The node of an emitted square lies over a point exactly when the square covers the point's cell, far edges included. |
| PartitionBuild.PointFindsSquare | crates/map-format/src/quadtree.rs:238-268 | Climbing from any point of the square, far edges included, finds the node of the emitted square over its cell exactly when that node is within the depth asked for, and nothing otherwise. |
| PartitionBuild.SidesAgree | crates/map-format/src/quadtree.rs:56-66 | For a proxy grid of the map's cells, the square the builder split is the square the reader derives from the header alone. |
| PartitionBuild.LocateFindsSquare | crates/map-format/src/quadtree.rs:238-268 | In metres and end to end, for every depth limit: on the builder's skeleton, the reader's lookup of any point of the map returns the node of the one emitted square over the point's grid cell if it is within the limit, and nothing otherwise. |
| PartitionBuild.OneCover | crates/map-format/src/builder.rs:1095-1181 | No two emitted squares cover one cell, so what a lookup should find is determined. |
| PartitionBuild.SkeletonDepth | crates/map-format/src/builder.rs:1161-1163 | No emitted square is deeper than the builder's bound, so a lookup down to that bound misses none. |
| Lod.IndexApart | crates/map-format/src/raster.rs:282-286 | Different cells of a chunk have different places in its buffer. |
| Lod.GetSet | crates/map-format/src/raster.rs:289-303 | A write is read back at its own cell and changes no other; writes outside the chunk do nothing. |
| Lod.CoarseIsBoxMean | crates/map-format/src/builder.rs:453-464 | Averaging four cells level by level is the mean of the 2^L by 2^L block, for every field and level. |
| Lod.SampleAtPlace | crates/map-format/src/raster.rs:246-296 | Every sample of the buffer is read at its line, its cell of the line and its channel, cells counted line by line. |
| LodBuild.FillQuarter | crates/map-format/src/builder.rs:450-464 | One child's loops write exactly its quadrant of the parent, each cell its four-cell mean, and leave the other quadrants. |
| LodBuild.Average4 | crates/map-format/src/builder.rs:441-465 | The map of parents holds exactly the parents of the children, every cell as the last child over it left it. |
| LodBuild.LodLevel | crates/map-format/src/builder.rs:428-474 | One level's pass emits the parents in ascending id, once each. |
| LodMeans.OneWriter | crates/map-format/src/builder.rs:445-452 | For an even chunk size exactly one child id writes a given parent cell. |
| LodMeans.CellIsLast | crates/map-format/src/builder.rs:442-465 | A parent cell is the mean of the last chunk stored for the one child over it, and zero if that child is missing. |
| LodMeans.LevelIsMean | crates/map-format/src/builder.rs:427-475 | In global coordinates every sample of a level is the mean of four samples of the level below. |
| LodCut.CutOne | crates/map-format/src/builder.rs:269-286 | One chunk holds its window of the raster, with zeros beyond the raster's edge. |
| LodCut.AddLayer | crates/map-format/src/builder.rs:240-297 | Accepted exactly on valid input, the byte limit on a chunk included; every input sample is read back at its global place, zeros elsewhere, and no two chunks share an id. |
| LodPyramid.GenerateLod | crates/map-format/src/builder.rs:416-477 | The loop builds a pyramid over the base chunks: one level for bit layers or an empty base, else as many as asked. |
| LodPyramid.PyramidCoarse | crates/map-format/src/builder.rs:427-475 | Every level of an even-sized pyramid reads as the repeated four-cell mean of the base. |
| LodPyramid.PyramidIsBoxMean | crates/map-format/src/builder.rs:416-477 | Every level-L sample is the mean of the 2^L by 2^L block of the zero-padded raster. |
| LodPyramid.OddFails | crates/map-format/src/builder.rs:450-464 | For an odd chunk size the chunks cut from a concrete raster are averaged wrongly. |
| LodPyramid.SpoilerIsCut | crates/map-format/src/builder.rs:267-297 | That chunk set is one that splitting a raster produces, chunk 0 included. |
| LodPyramid.AveragesExactlyEven | crates/map-format/src/builder.rs:450-464 | Levels average correctly if and only if the chunk size is even, both over all chunk sets and over those cut from a raster. |
| Stats.FoldChunk | crates/map-format/src/builder.rs:870-935 | The loop over a chunk's in-map cells adds exactly their values to the running figures. |
| Stats.FoldRecords | crates/map-format/src/builder.rs:820-935 | Over all stored chunks, the figures are those of the values visited in the chunks that decode; the others are passed over. |
| Stats.TallyOfMultiset | crates/map-format/src/builder.rs:870-935 | The figures depend on the multiset of values alone, not on their order. |
| Stats.CoveredOn | crates/map-format/src/builder.rs:972-981 | The in-map parts of consecutive chunks on one axis follow each other without gap or overlap. |
| Stats.AllCovered | crates/map-format/src/builder.rs:972-981 | Together they cover the axis exactly. |
| Stats.TilesMakeMap | crates/map-format/src/builder.rs:972-981 | Summing any field over all in-map parts is summing it over the map. |
| Stats.ChunkHoldsTile | crates/map-format/src/builder.rs:972-981 | A chunk's in-map cells hold exactly the raster's values of its tile. |
| Stats.VisitedIsFlat | crates/map-format/src/builder.rs:820-981 | The values visited chunk by chunk are, as a multiset, those of the flat raster inside the map. |
| Stats.ChunkedIsFlat | crates/map-format/src/builder.rs:820-981 | Chunked minimum, maximum, sum, count and non-zero count equal those of the flat raster, width times height cells are counted and coverage is one. |
| Stats.TallyBounds | crates/map-format/src/builder.rs:870-935 | The minimum and maximum bound every value and are attained, and the non-zero count is zero exactly on all-zero data. |
| StatsMeaning.TallyMeans | crates/map-format/src/builder.rs:870-935 | The figures of any values: how many there are, how many are not zero, and their sum. |
| StatsMeaning.FiguresOfRaster | crates/map-format/src/builder.rs:820-935 | The figures gathered chunk by chunk are the raster's number of samples, sum, number of zeros, and least and greatest sample. |
| StatsMeaning.CoverageIsShare | crates/map-format/src/builder.rs:894-898 | On a map the chunks reach in part, the coverage is the covered rectangle's share of the map's cells. |
| Region.PointInPolygon | crates/map-format/src/region.rs:388-407 | The toggling loop decides whether the number of crossed edges is odd. |
| Region.OutlineBounds | crates/map-format/src/region.rs:362-381 | The loop computes the outline's bounding box. |
| Region.LeftOfAll | crates/map-format/src/region.rs:388-407 | A point left of every corner crosses, along any part of the outline, an odd number of edges exactly when the part's ends lie on different sides, so an even number over all of it. |
| Region.InsideIsInBounds | crates/map-format/src/region.rs:362-407 | An odd crossing count puts the point inside the bounding box, for any polygon. |
| Region.BucketMonotone | crates/map-format/src/region.rs:270-275 | Bucket numbers never decrease along an axis. |
| Region.PointTouches | crates/map-format/src/region.rs:245-275 | A point in a box falls in a bucket which that box was entered under. |
| Region.PushAll | crates/map-format/src/region.rs:261-265 | The nested loops append the index to exactly the buckets of the rectangle. |
| Region.AroundExactly | crates/map-format/src/region.rs:278-295 | The unindexed answer is ascending, repeat-free and holds exactly the features whose polygon passes the even-odd test. |
| Region.AroundLess | crates/map-format/src/region.rs:255-295 | The answer over the first features is a prefix of the whole answer, and equal to it exactly when none of the others is around the point. |
| Region.FiltersLoseNothing | crates/map-format/src/region.rs:278-295 | For every bucket size, the bucket followed by the box and polygon tests gives the unindexed answer, in the same order. |
| Region.RegionSet.Create | crates/map-format/src/region.rs:174-205 | Creation fails on a dangling polygon reference, on a coordinate that is not finite or on a box over too many buckets, and succeeds with a complete index otherwise. |
| Region.RegionSet.RebuildIndex | crates/map-format/src/region.rs:245-268 | The index takes in the features up to the first whose box spans too many buckets, and the call succeeds exactly when there is none such. |
| Region.RegionSet.SetBucketSize | crates/map-format/src/region.rs:230-233 | The size is clamped below at one metre and kept whether or not the rebuild succeeds; after a failure the index lists exactly the features before the first box that is too wide. |
| Region.RegionSet.RegionsAt | crates/map-format/src/region.rs:278-295 | The indexed query answers what testing the polygons of the features taken in answers; it loses a region exactly when a feature left out by a failed rebuild is around the point. |
| Region.LossIsProbability | crates/map-format/src/region.rs:306-313 | Combined loss is a probability, at least each single loss, and certain exactly when one region is certain. |
| RegionMeaning.CrossesByProduct | crates/map-format/src/region.rs:396-404 | An edge is crossed only when one end is above the point and the other is not, and then exactly by the products that compare the point with the edge's place at its height. |
| RegionMeaning.CrossesIsLeft | crates/map-format/src/region.rs:396-404 | An edge is crossed exactly when it spans the point's height and the point lies left of the way up along it. |
| RegionMeaning.TriangleByWeights | crates/map-format/src/region.rs:388-407 | For every triangle with an area, a point with three positive barycentric weights passes the even-odd test and a point with a negative one fails it. |
| RegionMeaning.BoxIsTight | crates/map-format/src/region.rs:362-381 | Each side of the bounding box is attained by a corner, and it holds every corner. |
| RegionMeaning.BucketHolds | crates/map-format/src/region.rs:270-275 | A coordinate lies in the interval of its bucket. |
| RegionMeaning.SpanIsNumber | crates/map-format/src/region.rs:251-260 | The limited span is the number of buckets the box is entered under. |
| RegionMeaning.LossIsComplement | crates/map-format/src/region.rs:306-313 | One less the combined loss is the product over the regions of one less each loss, clamped to the unit interval. |
| StreamKeys.MixIsBijection | crates/core/src/rng.rs:161-167 | The mixer has a two-sided inverse on 64-bit words. |
| StreamKeys.MixInjective | crates/core/src/rng.rs:161-167 | No two words mix to the same word. |
| StreamKeys.FoldUndone | crates/core/src/rng.rs:161-167 | A right shift xored into a word is undone by the accumulated shifts, for any positive shift. |
| StreamKeys.TimesUndone | crates/core/src/rng.rs:161-167 | Wrapping multiplication by an odd constant is undone by its inverse modulo 2^64. |
| StreamKeys.FoldInjective | crates/core/src/rng.rs:70-79 | One key-folding step is injective in either argument with the other fixed. |
| StreamKeys.NeighboursDiffer | crates/core/src/rng.rs:70-79 | Stream keys that differ in exactly one of seed, purpose, individual and channel give different generator seeds. |
| StreamKeys.EverySeedReached | crates/core/src/rng.rs:70-79 | With the other parts fixed, every generator seed comes from some master seed. |
| StreamKeys.SeedRecovered | crates/core/src/rng.rs:70-79 | Taking channel, individual and purpose off a generator seed in that order gives back the master seed. |

## Left out

- Compression, checksums, hashes and chunk codecs: fields of `Primitives` with only the laws named above. That these laws can hold together is `Consistency.LawsCanHold`.
- Hash injectivity: assumed only as freedom from collisions among the strings a theorem names.
- Sizes beyond their on-disk fields (`Representable`, `PatchFits`): the code casts lengths to 32 or 64 bits without checking, so the file theorems ask that they fit; 64-bit address overflow is left out with them.
- Floating point: header floats are bit patterns; grids, regions, statistics and geometry use exact reals. Rounding, NaN, infinities and the saturating casts of bucket numbers and cell indices are not modelled.
- Writer.MapWriter.constructor: does not model the checks of the specification at writer.rs:119-129; an invalid grid appears instead as a file that does not open, in `Written.WriteThenOpen`.
- Writer.MapWriter.Finish: consumes the writer in the source, so a second call, guarded there by a flag, is not modelled; the sink starts empty.
- The typed `set_*` wrappers and `write_raster_chunk` of the writer: they encode their argument and make one of the modelled calls.
- Reader.SealedFrameOpens: is about opening with the hash check, as the theorems on written and patched files are; the flag that turns it off is `Reader.UncheckedExactly`.
- Sorting: library sorts are modelled as insertion sort; lemmas show the result does not depend on the algorithm wherever keys are distinct.
- Reader.BodyOpens: asks for a directory without repeated keys, as writers and patches make it; `directory.rs:131-134` sorts without removing repeats, and on a file that has them the class finds any of the records while the functions take the first.
- `layer_levels` in the source fingerprint is stated as a filter by layer; the slice per level is `ForLayerLevel`.
- Patched.PatchOpensExactly: asks for a base with the layout every writer and patch of this repository produces; files laid out otherwise are not covered.
- Patched.PatchStalesExactly: a patch that itself replaces the fingerprint or layer table is excluded, since it changes what is verified against; what the patched file then shows as stale follows from `Patched.PatchOpensExactly`.
- PatchedHeader.ExtensionKept: about an area that is not empty and lies behind the header, as writers place it.
- Graph, region, vector and provenance payloads, and the values of metadata records other than the layer and fingerprint tables: opaque bytes.
- `QuadtreeSkeleton::query`: a filter of the nodes by their bounds.
- PartitionBuild.PartitionSkeleton: grids wider or higher than 2^31 cells, where the power of two above does not fit 32 bits, are excluded; the aggregation rules that quantise means are parameters; the running minimum, which the code never reads, is left out.
- NodeKeys.KeyRoundTrip: coordinates that do not fit their depth give keys of other nodes, so they are excluded.
- LodCut.AddLayer: packing and codecs are left out; a chunk is its samples, as with lossless packing. Bit rows are packed in the source and not here.
- PartitionBuild.LocateFindsSquare: asks that the proxy grid has the map's own number of cells; the builder takes a proxy layer of any size.
- FreshBuild.BuiltMapOpens: the build's other metadata records are any records; how the typed ones are encoded is not modelled, and a build whose calls are refused returns an error and writes no file.
- Stats.FoldRecords: one channel at a time. The forbidden ratio is the non-zero count over the count.
- Stats.ChunkedIsFlat: asks that each chunk is stored once; a layer added twice is counted twice by the code.
- Region.RegionSet.Create: a coordinate is a real number or not finite, without saying which of infinity and NaN; not modelled are the encoding of regions and the functions that turn a region hit into a dropout event (`region.rs:316-360` and `region.rs:414` on).
- The generators behind a stream seed, ChaCha8 and the Gaussian sampler: not part of this model.
- Ring simplification, prism buffers, heights and terraces: left out. Roofs are proved for any ring, so for simplified ones too. The margin in metres is a number of passes here.
- Flood.FillHoles: masks are booleans; a field with values other than 0 and 1 is not modelled, nor is one with no columns.
- RingTrace.ComponentRings: which corner a ring starts from follows the insertion order of a JavaScript map; the model lets any be chosen, so the theorem holds for every order.
- SocketRuns.FetchesEndRight: one connection, with requests the service answers and whose cap agrees with the client's (`Allowed`); error frames, unknown channels, frames the service drops when its queue is full, events, pings and subscriptions are left out. Partial replies across a reconnect are not re-sent by the code; there only the retry budget and `close` are modelled.
- SocketClient.FetchAll: each page is the answer of a fetch, as `SocketRuns.FetchesEndRight` gives it, on a channel that does not change meanwhile; the call asks for the condition under which it ends. A limit above the page cap ends after one page, as `Reach` states.
- File and network access, HTTP and gRPC facades, the command line, the scene and UI code, dataset conversion, calibration and the simulator: not part of this model.

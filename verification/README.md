# Serializers, codecs and kernels of the text-to-speech plugin, in Dafny

The plugin vendors a handful of algorithms as C++ headers and writes its result as a WAV file. This project
models five of them and proves what each is for:

- **FlexBuffers**: a schema-less serializer. Every tree that can be built is read back from the finished bytes,
  whatever the sharing flags; slot widths are chosen from an estimate and still fit after alignment; map lookup
  agrees with a finite map; integers and strings can be changed in place.
- **FlatBuffers**: a builder that prepends objects to a buffer, a verifier for arbitrary bytes, and the accessors.
  What was stored at an offset stays readable through all later operations, with or without vtable sharing;
  the verifier accepts exactly the good buffers within its limits, what it accepts is read without leaving the
  buffer, and what the builder finishes is accepted and read back.
- **Quantized matrix-vector product**: a blocked vector kernel with overlapping blocks, and its split over threads,
  refine one dot product per row.
- **UTF-8 and string escaping**: encoder and decoder are inverse both ways; escaping is reversible.
- **WAV**: what is saved is decoded, up to a proved bound on quantization.

## How the model is organised

| files | subject |
|---|---|
| `Bytes`, `Bits`, `Options`, `Strings` | little-endian integers, padding, shifts and bitwise operators; optional results; byte strings, C strings, sorting by key |
| `FlexFormat`, `FlexReader` | the FlexBuffers accessors as a relation between bytes and trees, and as a bounds-checked reader |
| `FlexWidths`, `FlexSlots`, `FlexPools`, `FlexBuilder`, `FlexTree`, `FlexMutate` | the builder from slot widths up to whole trees; in-place mutation |
| `FlatVector`, `FlatScratch` | `vector_downward` as an array holding two sequences; the table steps of the builder on it, with their records in the scratch |
| `FlatFormat`, `FlatWriter`, `FlatPool`, `FlatScalars`, `FlatBuilder`, `FlatTables`, `FlatSorted`, `FlatPrograms` | objects by offset from the end, the builder, its clients, sorted vectors, arbitrary sequences of calls |
| `FlatSchema`, `FlatVerifier`, `FlatReader`, `FlatSoundness`, `FlatAlignment`, `FlatRoundTrip` | schemas, the verifier, unchecked reading, soundness, alignment, acceptance of builder output |
| `Neon`, `Gemv` | vector instructions on lanes; the kernel and the thread split |
| `Utf8`, `Escape` | code points; JSON string escapes |
| `WavFormat`, `WavLayout`, `WavCodec`, `Wav` | samples, chunks, whole files, the `AudioFile` class and `ExportWAV` |

Two ideas carry most of the proofs. A FlexBuffers buffer only grows at its end, and a FlatBuffers buffer only at its
front, so a predicate saying which tree or object is stored at a place is stable under growth
(`FlexFormat.DenotesStable`, `FlatFormat.ObjStable`). Each builder class has a ghost field saying what every
outstanding stack entry or offset stands for; each operation is specified by its effect on that field, and the class
invariant says that the bytes agree.

`dafny verify dfyconfig.toml` checks the whole project.

## Model

| member | source | states |
|---|---|---|
| Bytes.PaddingBytes | ios/src/include/flatbuffers/base.h:393-395 | The padding is less than the alignment and makes the size a multiple of it. |
| Bytes.PaddingBits | ios/src/include/flatbuffers/base.h:393-395 | Negating in 64 bits and masking, as the code does, gives that padding. |
| Bytes.SignedRoundTrip | ios/src/include/flatbuffers/flexbuffers.h:135-153 | A signed 64-bit integer in the range of `w` bytes survives truncation to them and sign extension. |
| Strings.StrCmpIsLexicographic | ios/src/include/flatbuffers/flexbuffers.h:1578-1587 | `strcmp` inside a buffer is negative exactly for a lexicographically smaller string and zero exactly for the same string. |
| Strings.SortPermutationSorts | ios/src/include/flatbuffers/flexbuffers.h:1093-1144 | Sorting distinct keys puts them in strictly increasing order. |
| Strings.SortPermutationIsUnique | ios/src/include/flatbuffers/flexbuffers.h:1093-1144 | Any permutation that sorts distinct keys is this one, so nothing depends on the algorithm of `std::sort`. |
| Strings.PermutedMapOf | ios/src/include/flatbuffers/flexbuffers.h:1093-1144 | Reordering key and value pairs does not change the finite map they stand for. |
| FlexFormat.TypedVectorCodes | ios/src/include/flatbuffers/flexbuffers.h:88-133 | A typed vector's code gives back its element type; a tuple's code gives back type and length if and only if the elements are int, uint or float. |
| FlexFormat.PackedTypeBits | ios/src/include/flatbuffers/flexbuffers.h:802-804 | Type and width are joined without a common bit, and masked and shifted out again as they were. |
| FlexFormat.WidthUIsLeast | ios/src/include/flatbuffers/flexbuffers.h:183-193 | A width can hold an unsigned value if and only if it is at least `WidthU` of it. |
| FlexFormat.WidthIIsLeast | ios/src/include/flatbuffers/flexbuffers.h:195-198 | The same for signed values and `WidthI`. |
| FlexFormat.DenotesStable | ios/src/include/flatbuffers/flexbuffers.h:1340-1349 | A reference keeps its tree when bytes are appended. |
| FlexFormat.NullRefIsNull | ios/src/include/flatbuffers/flexbuffers.h:815-858 | What an index out of range or a missing key gives is null in every buffer, and nothing else. |
| FlexReader.DecodeComplete | ios/src/include/flatbuffers/flexbuffers.h:368-660 | Reading through the accessors, bounds-checked, gives exactly the tree a reference denotes, given at least its depth of nesting. |
| FlexReader.DenotesIsFunctional | ios/src/include/flatbuffers/flexbuffers.h:368-660 | A reference denotes at most one tree. |
| FlexReader.OtherTuplesAreLost | ios/src/include/flatbuffers/flexbuffers.h:88-133 | Whatever the bytes, a reference with the type code of a tuple of keys, strings or booleans is never read as that tuple. |
| FlexReader.ThreeInts | ios/src/include/flatbuffers/flexbuffers.h:864-872 | The ten bytes 03 01 02 03 04 04 04 06 28 01 are read as the vector [1, 2, 3]. |
| FlexReader.OnePair | ios/src/include/flatbuffers/flexbuffers.h:864-872 | The twelve bytes 61 00 01 03 01 01 01 01 04 02 24 01 are read as the map from "a" to 1. |
| FlexWidths.ExactWidth | ios/src/include/flatbuffers/flexbuffers.h:1427-1454 | When no smaller width fits, the width an offset needs is the one being tried if and only if that one fits; the last always fits. |
| FlexWidths.ElemWidth | ios/src/include/flatbuffers/flexbuffers.h:1427-1454 | The loop always returns, with the least width that can hold the offset at its position. |
| FlexSlots.ChosenWidthFits | ios/src/include/flatbuffers/flexbuffers.h:1514-1551 | A width that fits at the estimated position, taken from the stack index and the unaligned size, still fits at the real one. |
| FlexSlots.ChooseVectorWidth | ios/src/include/flatbuffers/flexbuffers.h:1513-1532 | The width is the smallest, from the forced minimum on, in which every element, the length and the key vector's offset fit, all as estimated. |
| FlexSlots.AlignForVector | ios/src/include/flatbuffers/flexbuffers.h:1513-1541 | After alignment every slot of the vector fits at its real position, so the assertion in `WriteOffset` holds. |
| FlexSlots.WriteVector | ios/src/include/flatbuffers/flexbuffers.h:1540-1557 | Prefix, slots and packed types are written in their places after the aligned bytes. |
| FlexSlots.StoredWidthReads | ios/src/include/flatbuffers/flexbuffers.h:1423-1462 | An inline element is read back with the width of its slot, an offset with the width of its target. |
| FlexSlots.VectorMeaning | ios/src/include/flatbuffers/flexbuffers.h:1508-1563 | Those bytes, read as a vector, typed vector, tuple or map, are the tree made of the elements' trees. |
| FlexSlots.CreateVector | ios/src/include/flatbuffers/flexbuffers.h:1508-1563 | The new value stands for the vector of what its elements stood for, in every combination of typed, fixed and keys; its slots have the smallest width and lie right behind the padding that width needs. |
| FlexSlots.EntryStable | ios/src/include/flatbuffers/flexbuffers.h:1256-1263 | A value keeps its tree as long as bytes are only appended, on the stack or remembered outside it. |
| FlexSlots.WriteScalarVector | ios/src/include/flatbuffers/flexbuffers.h:1487-1506 | The value stands for the typed vector of the given scalars. |
| FlexSlots.RootDenotes | ios/src/include/flatbuffers/flexbuffers.h:864-872 | `GetRoot` of a buffer ended by a root slot, type and width denotes what the root entry stands for. |
| FlexPools.PoolEqualIsTruncatedEquality | ios/src/include/flatbuffers/flexbuffers.h:1589-1602 | The string pool identifies two stored strings if and only if they agree up to their first NUL. |
| FlexPools.PoolConfusesInteriorNul | ios/src/include/flatbuffers/flexbuffers.h:1589-1602 | Two different strings with an interior NUL that the pool takes for one. |
| FlexPools.KeepsIffNoLookalike | ios/src/include/flatbuffers/flexbuffers.h:1022-1038 | Among strings whose lengths take the same width, the pool keeps a string if and only if no different pooled one agrees with it up to the first NUL. |
| FlexPools.UnambiguousKeeps | ios/src/include/flatbuffers/flexbuffers.h:1022-1038 | When no two of a family of strings agree up to the first NUL, a pool of them keeps every one. |
| FlexBuilder.Builder.Null | ios/src/include/flatbuffers/flexbuffers.h:935-935 | Pushes an entry that stands for null. |
| FlexBuilder.Builder.Int | ios/src/include/flatbuffers/flexbuffers.h:941-941 | Pushes an entry that stands for the signed integer. |
| FlexBuilder.Builder.UInt | ios/src/include/flatbuffers/flexbuffers.h:947-947 | Pushes an entry that stands for the unsigned integer. |
| FlexBuilder.Builder.Bool | ios/src/include/flatbuffers/flexbuffers.h:965-965 | Pushes an entry that stands for the boolean. |
| FlexBuilder.Builder.IndirectInt | ios/src/include/flatbuffers/flexbuffers.h:971-975 | The integer is in the buffer and the entry refers to it; earlier entries keep their trees. |
| FlexBuilder.Builder.IndirectUInt | ios/src/include/flatbuffers/flexbuffers.h:977-983 | The same for unsigned integers. |
| FlexBuilder.Builder.FindKey | ios/src/include/flatbuffers/flexbuffers.h:1001-1017 | Finds a pooled key equal to the one just written, exactly if there is one. |
| FlexBuilder.Builder.Key | ios/src/include/flatbuffers/flexbuffers.h:1001-1017 | The entry stands for the key; with sharing, a pooled key adds no bytes, no two pooled offsets hold the same key, and rollback keeps every entry's and pool entry's meaning. |
| FlexBuilder.Builder.FindString | ios/src/include/flatbuffers/flexbuffers.h:1022-1038 | Finds a pooled string that agrees with the new one up to the first NUL, exactly if there is one. |
| FlexBuilder.Builder.String | ios/src/include/flatbuffers/flexbuffers.h:1022-1038 | Without sharing the entry stands for the string. With sharing it does if and only if what is stored at the offset of the pooled string that agrees with it up to the first NUL, if any, is the string itself; a hit adds no bytes and keeps the pool. |
| FlexBuilder.Builder.Blob | ios/src/include/flatbuffers/flexbuffers.h:1061-1063 | The entry stands for the blob. |
| FlexBuilder.Builder.EndVector | ios/src/include/flatbuffers/flexbuffers.h:1085-1091 | The children since `StartVector` become one vector of them, in the smallest slots that hold them; the entries below are untouched. |
| FlexBuilder.Builder.EndMap | ios/src/include/flatbuffers/flexbuffers.h:1093-1158 | The pairs since `StartMap` become one map, its keys in increasing order, each with its own value; key and value vector have the smallest slots that hold them. |
| FlexBuilder.Builder.ScalarVector | ios/src/include/flatbuffers/flexbuffers.h:1487-1506 | Pushes an entry that stands for the typed vector of the scalars. |
| FlexBuilder.Builder.ReuseValue | ios/src/include/flatbuffers/flexbuffers.h:1262-1263 | A value remembered at any earlier time, pushed again, stands for its tree, at no cost in bytes. |
| FlexBuilder.Builder.Clear | ios/src/include/flatbuffers/flexbuffers.h:921-929 | An empty valid builder. |
| FlexBuilder.Builder.Finish | ios/src/include/flatbuffers/flexbuffers.h:1306-1322 | The finished buffer, read from `GetRoot`, is the tree of the one remaining value, its root in the smallest slot that holds it. |
| FlexTree.BuildTree | ios/src/include/flatbuffers/flexbuffers.h:935-1158 | The client's calls for any storable tree push one entry that stands for it. |
| FlexTree.Serialize | ios/src/include/flatbuffers/flexbuffers.h:1306-1322 | Round trip: for every storable tree and every choice of sharing flags, reading the finished buffer from its root gives the tree, maps in key order; with string sharing its strings must differ before any NUL. |
| FlexTree.SerializeNulFree | ios/src/include/flatbuffers/flexbuffers.h:1306-1322 | In particular the round trip holds for every tree with NUL-free strings under every choice of sharing flags. |
| FlexTree.InteriorNulIsLost | ios/src/include/flatbuffers/flexbuffers.h:1022-1038 | With sharing on, a second string with an interior NUL gets the entry of a first that agrees with it before the NUL, and that entry does not stand for it. |
| FlexTree.ShareAll | ios/src/include/flatbuffers/flexbuffers.h:1001-1038 | Over any run of key and string calls with sharing on, two keys have one offset if and only if they agree up to their first NUL, two strings if and only if they are equal. |
| FlexTree.CanonKeepsMaps | ios/src/include/flatbuffers/flexbuffers.h:1093-1144 | Putting pairs in key order keeps the finite map. |
| FlexTree.CanonForgetsOrder | ios/src/include/flatbuffers/flexbuffers.h:1093-1144 | Two insertion orders of the same pairs give the same tree. |
| FlexTree.SearchKeys | ios/src/include/flatbuffers/flexbuffers.h:836-857 | Binary search in a sorted key vector finds the key's index, or the length if it is absent. |
| FlexTree.Lookup | ios/src/include/flatbuffers/flexbuffers.h:843-858 | `Map::operator[]` gives a reference to the key's value in the finite map, or the null reference if the key is absent. |
| FlexTree.SerializeThenLookup | ios/src/include/flatbuffers/flexbuffers.h:1093-1144 | From pairs in any order to a lookup in the finished bytes: each key leads to its own value, every other key to the null reference. |
| FlexMutate.StoredPatternReads | ios/src/include/flatbuffers/flexbuffers.h:736-746 | The width test accepts a value if and only if it is in the slot's range, and then the stored bytes read back as the value. |
| FlexMutate.MutateInt | ios/src/include/flatbuffers/flexbuffers.h:661-675 | Succeeds if and only if the reference is to an integer and the value fits; then the reference denotes the new value and no other byte changed. |
| FlexMutate.MutateUInt | ios/src/include/flatbuffers/flexbuffers.h:681-695 | The same for an unsigned argument. |
| FlexMutate.MutateString | ios/src/include/flatbuffers/flexbuffers.h:717-725 | Succeeds if and only if the reference is to a string or a key of the same length; then it denotes the new string, or the new key up to its first NUL, and no other byte changed. |
| FlatVector.NewReserved | ios/src/include/flatbuffers/flatbuffers.h:1017-1019 | The new size has room for the request and is a multiple of the alignment. |
| FlatVector.MemcpyDownward | ios/src/include/flatbuffers/flatbuffers.h:613-623 | The used back and front of the old block end up at the back and front of the new one. |
| FlatVector.VectorDownward.Reallocate | ios/src/include/flatbuffers/flatbuffers.h:1013-1028 | Both contents are preserved and the gap grows by at least the request. |
| FlatVector.VectorDownward.EnsureSpace | ios/src/include/flatbuffers/flatbuffers.h:904-911 | Contents preserved, and room for the request between them. |
| FlatVector.VectorDownward.MakeSpace | ios/src/include/flatbuffers/flatbuffers.h:913-917 | The data grows downwards by the request; the old data is its suffix, the scratch is unchanged. |
| FlatVector.VectorDownward.Push | ios/src/include/flatbuffers/flatbuffers.h:949-951 | The data becomes the bytes followed by the old data; the scratch is unchanged. |
| FlatVector.VectorDownward.Fill | ios/src/include/flatbuffers/flatbuffers.h:967-976 | The data becomes that many zeros followed by the old data; the scratch is unchanged. |
| FlatVector.VectorDownward.ScratchPush | ios/src/include/flatbuffers/flatbuffers.h:959-963 | The scratch gains the bytes at its end; the data is unchanged, even across reallocation. |
| FlatVector.VectorDownward.Pop | ios/src/include/flatbuffers/flatbuffers.h:978-978 | Only the newest data bytes go. |
| FlatVector.VectorDownward.ScratchPop | ios/src/include/flatbuffers/flatbuffers.h:979-979 | Only the newest scratch bytes go. |
| FlatVector.VectorDownward.WriteAt | ios/src/include/flatbuffers/flatbuffers.h:1404-1408 | Writing at an offset from the end changes those data bytes and no others. |
| FlatFormat.AtStable | ios/src/include/flatbuffers/flatbuffers.h:947-947 | The bytes at an offset from the end stay the same when the buffer grows. |
| FlatFormat.ObjStable | ios/src/include/flatbuffers/flatbuffers.h:1312-1323 | A stored string, vector or table, with all it refers to, stays stored when the buffer grows. |
| FlatReader.OneField | ios/src/include/flatbuffers/flatbuffers.h:2418-2437 | The twenty bytes 0c 00 00 00 00 00 06 00 08 00 04 00 06 00 00 00 07 00 00 00 are read as a table with one 32-bit field, 7. |
| FlatWriter.PushRef | ios/src/include/flatbuffers/flatbuffers.h:1317-1323 | The relative offset, aligned, leads back to the given offset and is within signed range. |
| FlatWriter.LengthAdjacent | ios/src/include/flatbuffers/flatbuffers.h:1267-1274 | On an aligned buffer the alignment of a length adds nothing: it stands right before what it counts. |
| FlatWriter.PushStringMeans | ios/src/include/flatbuffers/flatbuffers.h:1452-1459 | The bytes prepended, each step with its own alignment, are the string: length, bytes, terminator. |
| FlatWriter.StringAdjacent | ios/src/include/flatbuffers/flatbuffers.h:1452-1459 | No padding falls between a string's length and its first byte, although the length is pushed with its own alignment. |
| FlatWriter.PushScalarsMeans | ios/src/include/flatbuffers/flatbuffers.h:1597-1615 | The bytes prepended are the vector of scalars, each on its own boundary. |
| FlatWriter.ScalarsAdjacent | ios/src/include/flatbuffers/flatbuffers.h:1561-1573 | No padding falls between a vector's length and its first element. |
| FlatWriter.PushRefs | ios/src/include/flatbuffers/flatbuffers.h:1618-1623 | The vector of relative offsets, written last to first and closed by its length, is the vector of the objects in order. |
| FlatWriter.BuildVTable | ios/src/include/flatbuffers/flatbuffers.h:1362-1382 | The vtable holds its size, the table's size, each field's place, and zero for every other field. |
| FlatWriter.TableMeans | ios/src/include/flatbuffers/flatbuffers.h:2418-2437 | A table whose vtable says that is read as exactly the fields written: the others are absent. |
| FlatWriter.FindVTable | ios/src/include/flatbuffers/flatbuffers.h:1387-1398 | Finds an earlier vtable with the same bytes, exactly if there is one. |
| FlatWriter.LinkVTable | ios/src/include/flatbuffers/flatbuffers.h:1384-1409 | Shared or new, the table's vtable has the wanted bytes; with deduplication on no layout is stored twice, and a shared one costs no bytes. |
| FlatWriter.FinishFields | ios/src/include/flatbuffers/flatbuffers.h:1350-1412 | The table at the returned offset has exactly the given fields, its vtable begins with its own size and the table's, and ends with the last field. |
| FlatWriter.FinishMeans | ios/src/include/flatbuffers/flatbuffers.h:2002-2017 | The header leads to the root, the identifier and size prefix are in place, and the size is a multiple of the tracked alignment. |
| FlatPool.StringLessThanIsLess | ios/src/include/flatbuffers/flatbuffers.h:549-553 | The comparator is the lexicographic order of byte strings, embedded NULs included. |
| FlatPool.EquivalentIsEqual | ios/src/include/flatbuffers/flatbuffers.h:2045-2054 | Strings the ordered set takes for the same key are the same. |
| FlatPool.FindString | ios/src/include/flatbuffers/flatbuffers.h:1521-1522 | Finds a pooled string with the same bytes, exactly if there is one. |
| FlatBuilder.FlatBufferBuilder.CreateString | ios/src/include/flatbuffers/flatbuffers.h:1452-1459 | The returned offset stands for the string; every earlier offset keeps its object. |
| FlatBuilder.FlatBufferBuilder.CreateSharedString | ios/src/include/flatbuffers/flatbuffers.h:1514-1531 | A string shared before gives its old offset and leaves buffer and pool as they were; a new one is stored and pooled. |
| FlatBuilder.FlatBufferBuilder.CreateScalarVector | ios/src/include/flatbuffers/flatbuffers.h:1597-1615 | The returned offset stands for the vector of scalars. |
| FlatBuilder.FlatBufferBuilder.CreateOffsetVector | ios/src/include/flatbuffers/flatbuffers.h:1618-1623 | The returned offset stands for the vector of the objects at the given offsets. |
| FlatBuilder.FlatBufferBuilder.StartTable | ios/src/include/flatbuffers/flatbuffers.h:1341-1345 | A table without fields is under construction. |
| FlatBuilder.FlatBufferBuilder.AddElement | ios/src/include/flatbuffers/flatbuffers.h:1291-1296 | The field joins the table under construction, unless it compares equal to its default, floats as numbers, and defaults are not forced. |
| FlatScalars.SameIsEqualNumber | ios/src/include/flatbuffers/flatbuffers.h:28-44 | Floating-point fields are compared as the numbers their IEEE 754 patterns stand for; NaN is equal to nothing. |
| FlatBuilder.FlatBufferBuilder.AddOffset | ios/src/include/flatbuffers/flatbuffers.h:1298-1301 | A reference to the object at the offset joins the table, unless the offset is null. |
| FlatBuilder.FlatBufferBuilder.EndTable | ios/src/include/flatbuffers/flatbuffers.h:1350-1412 | The returned offset stands for the table of exactly the fields added, with deduplication on or off; its vtable records its own size, the table's size, and no slot behind the last field. |
| FlatBuilder.FlatBufferBuilder.Clear | ios/src/include/flatbuffers/flatbuffers.h:1153-1162 | An empty valid builder: no objects, no vtables, no pooled strings. |
| FlatBuilder.FlatBufferBuilder.Finish | ios/src/include/flatbuffers/flatbuffers.h:2002-2017 | The header leads to the root, all objects keep their offsets, and the size is a multiple of the largest alignment used. |
| FlatTables.FieldReads | ios/src/include/flatbuffers/flatbuffers.h:2434-2437 | `GetField` gives the stored bits of a present scalar field, or the default. |
| FlatTables.WriteTable | ios/src/include/flatbuffers/flatbuffers.h:1341-1412 | Any run of field calls between `StartTable` and `EndTable` gives the table of the fields those calls store. |
| FlatTables.WrittenThenRead | ios/src/include/flatbuffers/flatbuffers.h:2434-2437 | In any buffer that still holds such a table, `GetField` gives a value equal to the one passed to `AddElement`, bit for bit if and only if it is not a skipped floating-point zero whose default is the zero of the other sign; a reference field leads to its object. |
| FlatTables.NeverWritten | ios/src/include/flatbuffers/flatbuffers.h:2424-2432 | A field no call mentions is absent. |
| FlatTables.ShareAll | ios/src/include/flatbuffers/flatbuffers.h:1514-1531 | Over any run of shared strings, offsets are equal exactly for equal strings, and each reads back. |
| FlatPrograms.Run | ios/src/include/flatbuffers/flatbuffers.h:1341-1623 | Any sequence of strings, shared strings, vectors and tables, each referring to earlier results: every result stands at its offset for what it means without a buffer, options or offsets, and shared strings have one offset if and only if they are equal; it stops only at a call that fails an assertion on sizes. |
| FlatPrograms.Serialize | ios/src/include/flatbuffers/flatbuffers.h:2002-2017 | From such a sequence to a finished, verified and unpacked buffer: accepted if and only if the tables meant are within the limits, and then read back as what was meant, with deduplication on or off. |
| FlatScratch.RecordsDetermine | ios/src/include/flatbuffers/flatbuffers.h:1365-1380 | The scratch bytes decode to one list of vtables and one list of fields. |
| FlatScratch.TrackField | ios/src/include/flatbuffers/flatbuffers.h:1283-1288 | The scratch gains the record of one field, behind the vtables and the fields before it; the data is unchanged. |
| FlatScratch.ClearOffsets | ios/src/include/flatbuffers/flatbuffers.h:1430-1434 | Exactly the field records go, the vtable records stay. |
| FlatScratch.WriteVTable | ios/src/include/flatbuffers/flatbuffers.h:1362-1381 | The vtable written at the front of the data from the field records has every field in its place and zero elsewhere. |
| FlatScratch.FindVTable | ios/src/include/flatbuffers/flatbuffers.h:1387-1398 | The walk over the scratch finds an equal vtable exactly if one is remembered. |
| FlatScratch.EndTable | ios/src/include/flatbuffers/flatbuffers.h:1350-1412 | On one shared allocation: the table is finished, its fields, its size and its vtable's size as recorded, and the scratch is left with exactly the remembered vtables, no two alike. |
| FlatSorted.KeyReads | ios/src/include/flatbuffers/reflection_generated.h:192-194 | The key accessor reads the string stored in the key field. |
| FlatSorted.SortOffsets | ios/src/include/flatbuffers/flatbuffers.h:1863-1872 | Sorting with the table comparator gives a permutation in key order. |
| FlatSorted.SeenKeysSorted | ios/src/include/flatbuffers/flatbuffers.h:1863-1872 | Keys in byte order are in order as `strcmp` sees them, embedded NULs or not. |
| FlatSorted.CreateVectorOfSortedTables | ios/src/include/flatbuffers/flatbuffers.h:1889-1894 | The caller's array is permuted into key order and the vector holds those tables in that order. |
| FlatSorted.LookupByKey | ios/src/include/flatbuffers/flatbuffers.h:344-379 | Finds a table if and only if the key of one, up to its first NUL, is the one sought, and the table found has it. |
| FlatSorted.BuildThenLookup | ios/src/include/flatbuffers/flatbuffers.h:1889-1894 | A vector built sorted by NUL-free keys and then searched: a table is found if and only if one of those given has the key, and the table found is such a one. |
| FlatSchema.ReflectionIsASchema | ios/src/include/flatbuffers/reflection_generated.h:114-1092 | The model's table of the nine reflection tables satisfies what the generic schema asks: vtable offsets even and distinct, kinds of known size, references to existing tables. |
| FlatVerifier.Verifier.VerifyComplexity | ios/src/include/flatbuffers/flatbuffers.h:2322-2326 | Counts one more level and table, and says whether both limits hold. |
| FlatVerifier.Verifier.VerifyTableStart | ios/src/include/flatbuffers/flatbuffers.h:2256-2269 | Accepts if and only if table offset, vtable address, vtable size and alignment are good and both limits leave room. |
| FlatVerifier.Verifier.VerifyTable | ios/src/include/flatbuffers/reflection_generated.h:289-302 | A generated `Verify` accepts if and only if everything the schema leads to is good and the nesting and the number of visits are within the limits; then the depth is what it was. |
| FlatVerifier.Verifier.VerifyField | ios/src/include/flatbuffers/flatbuffers.h:2490-2516 | The same for one field, required or optional, of every kind. |
| FlatVerifier.FieldLeadsOn | ios/src/include/flatbuffers/flatbuffers.h:2301-2312 | What a field refers to starts strictly behind the field, hence behind its table. |
| FlatVerifier.Verifier.VerifyVectorOfStrings | ios/src/include/flatbuffers/flatbuffers.h:2237-2244 | Accepts if and only if every element is a good string. |
| FlatVerifier.Verifier.VerifyVectorOfTables | ios/src/include/flatbuffers/flatbuffers.h:2247-2254 | Accepts if and only if every element is a good table and all of them together are within the limits. |
| FlatVerifier.Verifier.VerifyBuffer | ios/src/include/flatbuffers/flatbuffers.h:2270-2293 | Accepts if and only if the identifier asked for is there, and the root offset and root table are good and within the limits. |
| FlatVerifier.Verifier.VerifySizePrefixedBuffer | ios/src/include/flatbuffers/flatbuffers.h:2295-2299 | The same behind a size prefix equal to the remaining size. |
| FlatVerifier.RoomForIdentifier | ios/src/include/flatbuffers/flatbuffers.h:2272-2275 | Every good buffer has room for an identifier behind the root offset, so where the guard of the comparison is too weak no verdict depends on it. |
| FlatSoundness.TableReads | ios/src/include/flatbuffers/flatbuffers.h:2418-2446 | For arbitrary bytes, if a table is good then the accessors, each read checked for bounds and each offset, length and vtable entry for alignment, traverse all of it within the verified depth. |
| FlatSoundness.UnpackedConforms | ios/src/include/flatbuffers/flatbuffers.h:2490-2516 | What is accepted is an object of the schema: every required field is there, and every field is of its kind, all the way down. |
| FlatSoundness.CheckThenRead | ios/src/include/flatbuffers/flatbuffers.h:2270-2293 | Reading after a successful `VerifyBuffer` never leaves the buffer, and gives an object of the schema. |
| FlatSoundness.CheckThenReadSizePrefixed | ios/src/include/flatbuffers/flatbuffers.h:2295-2299 | The same after a successful `VerifySizePrefixedBuffer`. |
| FlatAlignment.ObjectAligned | ios/src/include/flatbuffers/flatbuffers.h:1248-1274 | In a buffer whose size is a multiple of the tracked alignment, every scalar, length and offset of an object is at an address its size divides. |
| FlatRoundTrip.TableStored | ios/src/include/flatbuffers/flatbuffers.h:2418-2446 | A stored object that conforms to a schema is a good table, costs the verifier exactly its nesting and visits, and unpacks to itself as the schema sees it. |
| FlatRoundTrip.LeafLoad | ios/src/include/flatbuffers/flatbuffers.h:2322-2332 | A table that leads to no other table costs one level and one visit. |
| FlatRoundTrip.ChildAdds | ios/src/include/flatbuffers/flatbuffers.h:2322-2332 | A table in a field makes its parent at least one level deeper and one visit more than itself. |
| FlatRoundTrip.FinishThenVerify | ios/src/include/flatbuffers/flatbuffers.h:2002-2017 | A finished buffer, with or without size prefix, is accepted if and only if its tables are within the limits and the identifier asked for is the one written; then it reads back as what was stored, and every scalar is aligned. |
| Neon.WrapAdd | ios/src/include/tensorflow/lite/kernels/cpu_backend_gemm_custom_gemv.h:401-432 | Wrapping an operand first does not change a wrapped sum. |
| Neon.RoundingDoublingHighIsNearest | ios/src/include/tensorflow/lite/kernels/cpu_backend_gemm_custom_gemv.h:573-574 | The fixed-point product is the nearest integer, except for the one saturating product. |
| Neon.RoundingShiftRightIsNearest | ios/src/include/tensorflow/lite/kernels/cpu_backend_gemm_custom_gemv.h:575-578 | The rounding shift is the nearest multiple, ties upwards. |
| Neon.NarrowAndClampIsClamp | ios/src/include/tensorflow/lite/kernels/cpu_backend_gemm_custom_gemv.h:236-280 | Narrowing in saturating steps and then clamping is clamping the exact value. |
| Gemv.DotFits | ios/src/include/tensorflow/lite/kernels/cpu_backend_gemm_custom_gemv.h:359-529 | With operands of one 8-bit type each and at most 33025 columns no dot product overflows 32 bits. |
| Gemv.OutputIsNear | ios/src/include/tensorflow/lite/kernels/cpu_backend_gemm_custom_gemv.h:549-587 | From the parameters: without overflow a row's result is the clamped sum of the output offset and an integer near the real product of the plain sum of products, plus the row's bias if there is one, with the row's own multiplier or the common one; within half a unit, and for a right shift half a unit of the intermediate result more. |
| Gemv.DotIsPlainSum | ios/src/include/tensorflow/lite/kernels/cpu_backend_gemm_custom_gemv.h:359-529 | The dot product by row index is the sum of products of the row's slice and the vector, zero points subtracted. |
| Gemv.ZeroLanes | ios/src/include/tensorflow/lite/kernels/cpu_backend_gemm_custom_gemv.h:485-509 | The falling-through switch zeroes exactly the first `back` lanes. |
| Gemv.BlockSums | ios/src/include/tensorflow/lite/kernels/cpu_backend_gemm_custom_gemv.h:463-529 | A block of eight, its first `back` input lanes zeroed, adds exactly the columns not counted yet. |
| Gemv.Accumulate | ios/src/include/tensorflow/lite/kernels/cpu_backend_gemm_custom_gemv.h:359-529 | For every column count from 8 on, the lanes of the four accumulators add up, modulo 2^32, to the four full dot products. |
| Gemv.ReduceSums | ios/src/include/tensorflow/lite/kernels/cpu_backend_gemm_custom_gemv.h:531-544 | The pairwise additions leave the wrapped sums of the four accumulators, in row order. |
| Gemv.Finish | ios/src/include/tensorflow/lite/kernels/cpu_backend_gemm_custom_gemv.h:549-587 | Bias, multiplier, shifts, output offset and clamping of four lanes give the four rows' results, with one multiplier or one per row. |
| Gemv.Run | ios/src/include/tensorflow/lite/kernels/cpu_backend_gemm_custom_gemv.h:322-588 | For any non-empty row range ending at four or more, exactly the rows of the range, and those a nudged first group reaches back to, get their results; other rows are unchanged. |
| Gemv.RangesCover | ios/src/include/tensorflow/lite/kernels/cpu_backend_gemm_custom_gemv.h:175-183 | Every row is in some thread's range. |
| Gemv.RangesDisjoint | ios/src/include/tensorflow/lite/kernels/cpu_backend_gemm_custom_gemv.h:175-183 | No row is in two. |
| Gemv.RangesOfFour | ios/src/include/tensorflow/lite/kernels/cpu_backend_gemm_custom_gemv.h:330-330 | Every thread passes the debug check of the kernel if and only if the ranges before the last leave at least four rows. |
| Gemv.LeastShare | ios/src/include/tensorflow/lite/kernels/cpu_backend_gemm_custom_gemv.h:175-178 | A thread's share is the least multiple of four rows with which all rows are covered. |
| Gemv.NineRowsOnTwoThreads | ios/src/include/tensorflow/lite/kernels/cpu_backend_gemm_custom_gemv.h:175-183 | A split the thread heuristic does choose and for which that check fails. |
| Gemv.HowManyThreads | ios/src/include/tensorflow/lite/kernels/internal/common.h:973-1004 | At least one thread, and no more than the maximum asked for. |
| Gemv.MostThreads | ios/src/include/tensorflow/lite/kernels/internal/common.h:973-1004 | The most threads, up to the maximum, that leave each four rows and 65536 multiplications, or one. |
| Gemv.SplitRows | ios/src/include/tensorflow/lite/kernels/cpu_backend_gemm_custom_gemv.h:173-183 | The tasks' ranges lie between consecutive boundaries. |
| Gemv.Execute | ios/src/include/tensorflow/lite/kernels/cpu_backend_gemm_custom_gemv.h:184-184 | Whatever the order of the tasks, every row ends up with its result. |
| Gemv.CustomGemv | ios/src/include/tensorflow/lite/kernels/cpu_backend_gemm_custom_gemv.h:146-187 | Shapes with fewer than four rows or eight columns are refused; for all others every row gets the result the parameters say, on any number of threads. |
| Utf8.EncodedIsRead | ios/src/include/flatbuffers/util.h:469-538 | Every scalar value's encoding, whatever follows it, is read as that value and exactly those bytes. |
| Utf8.ReadIsEncoded | ios/src/include/flatbuffers/util.h:469-538 | Bytes the grammar of RFC 3629 section 4 accepts are exactly the encoding of the scalar value read. |
| Utf8.EncodeInjective | ios/src/include/flatbuffers/util.h:469-490 | Different scalar values have different encodings. |
| Utf8.ToUTF8 | ios/src/include/flatbuffers/util.h:469-490 | Appends the encoding in one to six bytes, as RFC 3629 section 3 and its predecessor tabulate it, and returns its length. |
| Utf8.LeadBits | ios/src/include/flatbuffers/util.h:477-480 | The first byte joins its run of ones with the highest bits of the code point, which share no bit. |
| Utf8.CountLeadingOnes | ios/src/include/flatbuffers/util.h:500-507 | The loop counts the leading one bits, up to six. |
| Utf8.GatherMeans | ios/src/include/flatbuffers/util.h:514-538 | The surrogate and shortest-form checks accept exactly what the grammar accepts. |
| Utf8.FromUTF8 | ios/src/include/flatbuffers/util.h:497-538 | Returns -1 if and only if the grammar has no character here; otherwise the code point and the end of its bytes. |
| Utf8.SixMoreBits | ios/src/include/flatbuffers/util.h:516-518 | Shifting by six and joining a continuation byte's low bits appends them as digits. |
| Utf8.TailBits | ios/src/include/flatbuffers/util.h:515-515 | The mask test on a continuation byte is the range of the grammar. |
| Escape.EscapeOne | ios/src/include/flatbuffers/util.h:574-632 | One turn of the loop consumes one character or stray byte and gives its text; it fails only for a stray byte that is not allowed. |
| Escape.SurrogateBits | ios/src/include/flatbuffers/util.h:620-622 | Shift and mask split the code point into the two surrogates' ten digits each. |
| Escape.EscapeString | ios/src/include/flatbuffers/util.h:569-637 | Succeeds if and only if stray bytes are allowed or the input is well-formed UTF-8; the text is the quoted concatenation. |
| Escape.EscapedReads | ios/src/include/flatbuffers/util.h:569-637 | Unescaping by RFC 8259 section 7, surrogate pairs included, gives back the code points. |
| Escape.EscapedBytesRead | ios/src/include/flatbuffers/util.h:569-637 | Whatever the flags and the bytes, well-formed or not, the text stands for exactly the string. |
| Escape.NaturalTextIsRaw | ios/src/include/flatbuffers/util.h:609-612 | With natural UTF-8, what has no escape of its own comes out byte for byte. |
| Escape.EscapeLength | ios/src/include/flatbuffers/util.h:574-632 | Short escapes are used where there are any, `\u` escapes only where they are needed, and pairs of them only beyond 0xFFFF. |
| Escape.HexUpperCase | ios/src/include/flatbuffers/util.h:619-626 | Digits above nine are written in upper case. |
| Escape.TextPrintable | ios/src/include/flatbuffers/util.h:569-637 | Without raw UTF-8 only printable ASCII is written. |
| Escape.CodePointsEncode | ios/src/include/flatbuffers/util.h:497-538 | A well-formed string is the encoding of its code points. |
| WavFormat.ChunkIds | ios/src/tensorflowtts/AudioFile.h:810-826 | The chunk identifiers are the character codes of their names. |
| WavFormat.SampleReads | ios/src/tensorflowtts/AudioFile.h:553-593 | A sample read where it was written has exactly the 8, 16 or 24-bit code, or the 32-bit pattern, that was written. |
| WavFormat.CodeReads | ios/src/tensorflowtts/AudioFile.h:553-593 | Whoever wrote a code of 8, 16, 24 or 32 bits, it is read as the float nearest to its fraction of full scale. |
| WavFormat.JoinedBytes | ios/src/tensorflowtts/AudioFile.h:1125-1149 | Shifted bytes joined with `|` are the little-endian integer, for two, three and four bytes. |
| WavFormat.RereadIsNear | ios/src/tensorflowtts/AudioFile.h:1201-1228 | In range, a sample moves by less than 2/128 at 8 bits, 2/32768 at 16 bits and 1/8388608 at 24 bits, and not at all at 32. |
| WavFormat.QuantizedTowardsZero | ios/src/tensorflowtts/AudioFile.h:1207-1222 | In range, the conversions cut off towards zero what the scaled sample has behind the point. |
| WavFormat.OutOfRangeSaturates | ios/src/tensorflowtts/AudioFile.h:1207-1238 | Out of range, 8 and 16 bits saturate. |
| WavFormat.Near24Iff | ios/src/tensorflowtts/AudioFile.h:864-876 | At 24 bits, where nothing is clamped, the bound holds if and only if the sample is above -1 - 2^-23 and below 1. |
| WavLayout.GetIndexOfChunk | ios/src/tensorflowtts/AudioFile.h:1172-1197 | Returns the first chunk with the id, or -1; payload bytes are never taken for a chunk. |
| WavLayout.FramesAt | ios/src/tensorflowtts/AudioFile.h:850-894 | Each sample's bytes are at the index the reader computes for its frame and channel. |
| WavCodec.FormatReads | ios/src/tensorflowtts/AudioFile.h:497-507 | The format chunk's fields read back as they were written. |
| WavCodec.ByteRate | ios/src/tensorflowtts/AudioFile.h:827-846 | Below 2^32 bits a second, the byte rate is that of the channels' samples; the float extension is empty. |
| WavCodec.RiffSize | ios/src/tensorflowtts/AudioFile.h:810-822 | The size field of the header counts everything behind it. |
| WavCodec.WaveChunks | ios/src/tensorflowtts/AudioFile.h:1172-1197 | The walk visits exactly the two or three chunks of a written file. |
| Wav.WriteFrames | ios/src/tensorflowtts/AudioFile.h:850-894 | The nested loops write the frames in order, channels interleaved. |
| Wav.ReadFrames | ios/src/tensorflowtts/AudioFile.h:549-594 | The nested loops give every channel all its samples in order. |
| Wav.CheckFormat | ios/src/tensorflowtts/AudioFile.h:509-541 | The four checks on the header, in their order, accept exactly the supported formats. |
| Wav.AudioFile.SetAudioBuffer | ios/src/tensorflowtts/AudioFile.h:338-368 | The samples become the given ones; an empty buffer is refused and changes nothing. |
| Wav.AudioFile.SetNumSamplesPerChannel | ios/src/tensorflowtts/AudioFile.h:379-392 | Every channel has the new length; old samples stay, new ones are zero. |
| Wav.AudioFile.SetAudioBufferSize | ios/src/tensorflowtts/AudioFile.h:371-376 | The same, with channels dropped or added first. |
| Wav.AudioFile.SetNumChannels | ios/src/tensorflowtts/AudioFile.h:395-413 | Channels are dropped, or silent ones of the common length added. |
| Wav.AudioFile.SaveToWaveFile | ios/src/tensorflowtts/AudioFile.h:800-914 | Fails if and only if there are samples of an unsupported depth; otherwise gives the bytes of the file, its own size checks passing. |
| Wav.AudioFile.DecodeWaveFile | ios/src/tensorflowtts/AudioFile.h:472-605 | Accepts if and only if ids, chunks and header are as required; then every field is what the file says, and the iXML text is kept if the file has none. |
| Wav.AudioFile.DecodedCode | ios/src/tensorflowtts/AudioFile.h:549-594 | In a file written by anyone, integer codes of any depth are decoded, each from its place, to the nearest fraction of full scale. |
| Wav.WrittenIsReadable | ios/src/tensorflowtts/AudioFile.h:523-535 | A file written for 1 to 128 channels passes the reader's checks, the 32-bit arithmetic of the byte rate included. |
| Wav.DecodedSurvives | ios/src/tensorflowtts/AudioFile.h:549-594 | Decoding a written file restores rate, depth and channels, and every sample as reread from its code. |
| Wav.SaveThenDecode | ios/src/tensorflowtts/AudioFile.h:800-914 | Round trip from one object to another: rate, depth, channel count, iXML and sample codes. |
| Wav.SurvivorsAreNear | ios/src/tensorflowtts/AudioFile.h:554-576 | Carried through both loops: no sample in range moves by as much as the bound of its depth, and 32-bit channels are equal. |
| Wav.ExportWAV | ios/src/tensorflowtts/VoxCommon.cpp:3-21 | The sequence of setters leaves the given samples as the only channel, and the file has depth 32. |
| Wav.ExportThenDecode | ios/src/tensorflowtts/VoxCommon.cpp:3-21 | What is exported is decoded bit for bit. |

## Where the code and what is promised differ

- The string pool of the FlexBuffers builder compares only up to the first NUL. `FlexBuilder.Builder.String` says exactly
  when a string pushed with sharing reads back, and `FlexTree.InteriorNulIsLost` gives one that does not. The round trip
  therefore asks, when string sharing is on and only then, that no two strings of the tree agree up to the first NUL.
- Tuples of keys, strings or booleans are accepted by the builder but their type codes read back as something else:
  `FlexFormat.TypedVectorCodes` says exactly when they read back, `FlexReader.OtherTuplesAreLost` that the others never do.
- A floating-point field of a FlatBuffers table is skipped when it compares equal to its default, so a zero of the other
  sign reads back as the default zero (`FlatTables.WrittenThenRead`).
- `LookupByKey` compares with `strcmp`, sorting with the whole string: a stored key is found under its part before any
  NUL (`FlatSorted.LookupByKey`).
- The guard of the verifier's identifier comparison asks for eight bytes, the comparison behind a size prefix reads up to
  the twelfth. No verdict depends on those bytes (`FlatVerifier.RoomForIdentifier`); the model refuses such buffers.
- The kernel's debug check asks each thread for four rows, which the split does not ensure
  (`Gemv.NineRowsOnTwoThreads`, `Gemv.RangesOfFour`). The kernel is correct under the weaker condition that the range
  ends at row four or later, which every split satisfies.
- 24-bit WAV samples are not clamped, so 1.0 comes back as -1.0 (`WavFormat.Near24Iff`).
- Decoding a WAV file without an iXML chunk keeps the text of an earlier file (`Wav.AudioFile.DecodeWaveFile`).

## Left out

- FlexBuffers floats, float vectors and `MutateFloat`: their narrowing is IEEE arithmetic.
- FlexSlots.CreateVector: typed vectors of floats, and deprecated typed vectors of strings, are not covered; tuples only
  where their type code reads back.
- FlexBuilder.Builder.EndVector: the same restriction.
- FlexSlots.WriteScalarVector: no arrays of float or double.
- FlexBuilder.Builder.ScalarVector: no arrays of float or double.
- `MutateBool`: for slots wider than a byte it copies more bytes than a bool has.
- The conversions between FlexBuffers types in `AsInt64` and the like.
- `std::sort`, `std::bsearch` and `std::set` are library code: modelled by an insertion sort, a binary search and a search
  through the set, each with the contract the standard gives them.
- FlexBuilder.Builder.WriteKey: pooled keys are found by content; the tree structure of the ordered set is not modelled.
- FlatBuilder.FlatBufferBuilder.TrackField: the builder class keeps field locations and remembered vtables as sequences;
  `FlatScratch` proves the same steps with both as records in one allocation, but the class itself does not run on it.
- FlatBuffers structs, unions, nested and uninitialised vectors, forced alignment, and scalar keys of sorted vectors.
- FlatBuffers NaN defaults: the compile-time option that lets a NaN equal a NaN default is taken as off, its default.
- Table::SetField, SetPointer and `GetBufferStartFromRootPointer`.
- FlatSchema.ReflectionIsASchema: the offsets, kinds and required flags themselves are constants, as in
  `reflection_generated.h`.
- Verification without alignment checks, and the tracking of the computed buffer size.
- Allocators, move and swap, detached buffers, big-endian branches.
- The float kernel, prefetches, and the scheduling of the thread pool beyond the order of the tasks.
- RoundUp and multiplication in `CustomGemv` are taken without 32-bit overflow of the row and column counts.
- AIFF files, opening and writing files, console messages.
- Wav.AudioFile.DecodeWaveFile: WAV files with broken chunk lists or a format chunk that is too short are excluded; the
  reader does not guard against them.
- WavLayout.GetIndexOfChunk: the same restriction on chunk lists.
- Wav.AudioFile.SaveToWaveFile: gives the bytes that would be written; opening the file is not modelled, and the sizes
  must fit the format's 32-bit fields.
- Samples are bit patterns whose value is a real number; rounding inside the sample conversions is not modelled.
- FlatTables.ShareAll: asks for eight bytes of room more than each string needs at most, near the 2 GB limit only;
  `FlatPrograms.Run` states the same for any sequence of calls without that.

# Models of the RustCrypto utilities

A Dafny model of seven crates of the workspace, with proofs of what each is for.

- **fiat-constify** (`Constify*.dfy`): the source-to-source pass that turns `&mut` output parameters
  into returned tuples. One evaluator gives meaning to the code before and after; the rewritten
  functions return what the original ones leave behind their references. The evaluator bounds the
  depth of calls, and `ConstifySemantics.FnDeeper` and `MeansOne` show that the bound does not matter;
  well-typed files without recursion always have a meaning (`ConstifyTotal`). The integer types of the
  language are those of `ConstifyTypes.IntegerNames`.
- **blobby** (`Vlq.dfy`, `Blob*.dfy`): the de-duplicating storage format, its encoder and its
  iterators. Encoding and iterating is the identity, and the order of the index is the shortest.
- **block-buffer** (`BlockSplit.dfy`, `BlockBuffer.dfy`, `HashPadding.dfy`, `BlockSerialize.dfy`,
  `ReadBuffer.dfy`): the eager, lazy and read buffers against the plain split of the whole message
  or stream, hash padding up to the bits of FIPS 180-4, and serialization as a bisimulation.
- **block-padding** and **inout** (`Padding.dfy`, `InOut.dfy`): padding schemes, and processing in
  place or from buffer to buffer.
- **cpufeatures** (`FeatureCache.dfy`): the one-byte cache under relaxed atomics, as a state machine.
- **dbl** (`GaloisDouble.dfy`): limb arithmetic against multiplication by x in GF(2^n).
- **hex-literal** (`HexComments.dfy`, `HexLiteral.dfy`): the comment automaton and the hex parser.

`Common.dfy` holds shared helpers, `BitStrings.dfy` relates numbers, bytes and bits, and
`OrderedMap.dfy` models `BTreeMap` with byte-string keys.
`dafny verify dfyconfig.toml` verifies everything.

Panics are results of the models (`Panics`, `Err`, `None`), with two exceptions that are
preconditions: panics that the documentation of a function lists under "Panics", and the check of
block-padding that the block size, a type parameter, is at most 255. Calls of `compress` and
`gen_block` are modelled by the blocks that go in and come out, CPU detection by one unknown boolean,
operators of the rewritten programs and block ciphers by arbitrary functions. Lengths and positions
are unbounded; `usize` does not wrap in the modelled code because numbers read from a store stay
below 2^29 and everything else is bounded by the length of a slice.

Where the code and its documentation disagree, the model follows the code:

- hex-literal documents that a block comment ends at `*/`. The automaton ends it only at a `/` that
  follows an odd run of `*`, so `/***/` stays open (`HexComments.FirstEndCloses`,
  `HexComments.ThreeStarsStayOpen`).
- fiat-constify keeps outputs in a map ordered by name but binds call results in argument order. A
  function with `out2` before `out10` in its signature returns `out10` first, so a rewritten call binds
  the two the wrong way round (`ConstifyTuples.TupleAlignment`, `ConstifySwap.NumberedOutputsSwap`).
- fiat-constify gives every array the default `[0; len]`, which does not compile for an array of arrays
  (`ConstifyDefaults.DefaultTypeChecks`, `ConstifyDefaults.NestedArrayDefault`).

## Model

| member | source | states |
|---|---|---|
| `ConstifyFile.MeaningPreserved` | fiat-constify/src/main.rs:105-243 | for every interpretation of the operators and every call that the original file gives a meaning (recursion included), the rewritten function returns under each output name the value that the original leaves there, if outputs are fully written before they are read and not redeclared, variables filled by a call are not assigned again, and callees have their outputs in order; it returns them in the order of the signature if its own outputs are in order |
| `ConstifyTotal.TotalMeaning` | fiat-constify/src/main.rs:105-243 | in a well-typed file whose functions call only earlier ones and meet those conditions, every call with arguments of the right layouts has a meaning, and the rewritten call has one with the same outputs |
| `ConstifyTotal.TypedRuns` | fiat-constify/src/main.rs:105-139 | well-typed calls never get stuck: every expression, assignment and call of the fragment has a value |
| `ConstifySample.SampleKept` | fiat-constify/src/main.rs:105-243 | a file with arrays, an operator and a call: it is rewritten, meets all conditions, and computes the same value before and after, for all inputs |
| `ConstifySample.SampleTyped` | fiat-constify/src/main.rs:105-139 | that file is well-typed and calls only earlier functions |
| `ConstifyAccepts.RewriteSucceedsIff` | fiat-constify/src/main.rs:44-53 | the tool rewrites a file without a panic if and only if aliases have different names, every function has outputs with different names and types that have a default by the aliases before it, and every `&mut` argument is a plain variable |
| `ConstifyAccepts.FnOk` | fiat-constify/src/main.rs:105-162 | the same for one function |
| `ConstifyPreservation.FnPreserved` | fiat-constify/src/main.rs:105-162 | the same for one call, by induction over the call depth and the statements |
| `ConstifyPreservation.BodyPreserved` | fiat-constify/src/main.rs:144-162 | a rewritten body started with zeros in the untouched places keeps step with the original, and ends with its values in every output that has been fully written |
| `ConstifyWrites.FullyWrittenIff` | fiat-constify/src/main.rs:144-162 | a function that reads no unwritten place of its outputs and runs at all keeps its meaning, for everything that the caller may hold behind the references, if and only if it writes every place of its outputs |
| `ConstifyWrites.UnwrittenDiffers` | fiat-constify/src/main.rs:299-331 | with ones behind the references, the original leaves a one at an unwritten place and the rewritten function does not return it |
| `ConstifyPreservation.CallSimulated` | fiat-constify/src/main.rs:189-243 | `let (..) = f(..)` binds what the call through `&mut` arguments would have written |
| `ConstifyDefaults.DefaultTypeChecks` | fiat-constify/src/main.rs:392-428 | a default has the type that it is the default of if and only if that type does not end, through any chain of aliases, in an array of anything but integers |
| `ConstifyDefaults.NestedArrayDefault` | fiat-constify/src/main.rs:401-407 | `[[u64; 2]; 3]` gets the default `[0; 3]`, which does not have that type |
| `ConstifyTuples.TupleAlignment` | fiat-constify/src/main.rs:189-388 | in every program, every call of a function with the given signature leaves the same values in the caller's variables before and after the rewrite if and only if every output stands in its place among the sorted names or is an array of length 0; without such arrays, if and only if the output names increase along the signature |
| `ConstifySwap.DisorderChangesMeaning` | fiat-constify/src/main.rs:189-297 | a file with a function whose two outputs are out of order, and a caller: it is rewritten without a panic, and the value that the caller leaves in its output changes |
| `ConstifySwap.NumberedOutputsSwap` | fiat-constify/src/main.rs:282-297 | the same for the names `out2` and `out10` |
| `ConstifyFile.CommonOrder` | fiat-constify/src/main.rs:301-388 | inserted bindings, return type and returned tuple list the outputs in one order, by increasing name, each with its own type and default; the function becomes `const` and keeps its name and its inputs |
| `ConstifyDefaults.DefaultForTerminates` | fiat-constify/src/main.rs:392-428 | the recursion over aliases ends if and only if the chain of aliases does, and then answers for the type at its end |
| `ConstifyDefaults.DefaultForIff` | fiat-constify/src/main.rs:392-428 | the default is 0 if and only if the aliases end in `u8`, `u32` or `u64`, and n zeros if and only if they end in an array of length n; everything else panics |
| `ConstifyFile.ItemsRewritten` | fiat-constify/src/main.rs:44-53 | rewriting item by item with the aliases seen so far equals rewriting every function with all aliases of the file |
| `ConstifyRewrite.RewriteFile` | fiat-constify/src/main.rs:46-53 | the loop over items computes the specified rewrite, including the panic on a repeated alias |
| `ConstifyRewrite.RewriteFnAsConst` | fiat-constify/src/main.rs:105-139 | one pass over the parameters splits inputs from outputs, with the panics for a repeated name and for no outputs |
| `ConstifyRewrite.RewriteFnBody` | fiat-constify/src/main.rs:144-162 | bindings first, then the rewritten statements; the first panic wins |
| `ConstifyRewrite.RewriteFnStmt` | fiat-constify/src/main.rs:166-185 | `*x = e` becomes `x = e`, call statements become bindings, everything else stays |
| `ConstifyRewrite.RewriteFnCall` | fiat-constify/src/main.rs:189-243 | one pass over the arguments separates the targets of `&mut` from the plain arguments, each in order |
| `ConstifyRewrite.AddOutput` | fiat-constify/src/main.rs:293-297 | an output is added at its place in the order, or its name is a duplicate |
| `OrderedMap.LessIff` | fiat-constify/src/main.rs:282 | the order of the map is the lexicographic order of the names |
| `Vlq.CodeDenotes` | blobby/src/lib.rs:116-140 | exactly the numbers up to 270549119 have a complete code of at most four bytes, which denotes them, with its exact length |
| `Vlq.DenotesCode` | blobby/src/lib.rs:86-114 | every complete code is the code of the number that it denotes |
| `Vlq.PrefixFree` | blobby/src/lib.rs:86-114 | no code is a proper prefix of another |
| `Vlq.LenMonotone` | blobby/src/lib.rs:119-140 | longer codes belong to larger numbers |
| `Vlq.ReadCode` | blobby/src/lib.rs:86-114 | reading a code returns its number and consumes exactly the code, whatever follows |
| `Vlq.ReadSpec` | blobby/src/lib.rs:79-114 | reading succeeds only on complete codes; otherwise the data end inside a code, or four bytes in a row announce another |
| `Vlq.ReadVlq` | blobby/src/lib.rs:86-114 | the unrolled steps compute the specified read and position |
| `Vlq.EncodeVlq` | blobby/src/lib.rs:119-140 | the tail of the buffer is the code; it fails exactly above 270549119 |
| `BlobStore.OpenPrinted` | blobby/src/lib.rs:212-227 | opening any printed store recovers its index and leaves its entries |
| `BlobStore.NextPrinted` | blobby/src/lib.rs:229-265 | reading at any printed entry returns its blob and moves to the next entry |
| `BlobStore.OpenIsPrinted` | blobby/src/lib.rs:212-227 | data that open are a printed index followed by the body |
| `BlobStore.NextIsPrinted` | blobby/src/lib.rs:229-265 | a call that returns a blob has consumed exactly one printed entry for it |
| `BlobStore.EntryLayout` | blobby/src/lib.rs:146-154 | a reference to entry j is the number 2j + 1, an explicit blob is twice its length and its bytes; up to 63 the number is that one byte |
| `BlobIterator.NewIterator` | blobby/src/lib.rs:212-227 | the loop computes the specified result on all data, errors and panics included |
| `BlobIterator.BlobIterator.Next` | blobby/src/lib.rs:254-264 | item and position on all data; an error jumps to the end |
| `BlobIterator.RunBlobs` | blobby/src/lib.rs:210-265 | any number of calls on a well-formed store gives its blobs in order and then the end forever |
| `BlobIterator.GroupIterator.Next` | blobby/src/lib.rs:284-299 | group, error or end, and the position after it, on all data |
| `BlobIterator.GroupProgress` | blobby/src/lib.rs:284-299 | on all data, a group has N blobs, every item makes progress, and after any error every call reports the end |
| `BlobIterator.GroupPrinted` | blobby/src/lib.rs:284-299 | where entries are printed, a call takes the next N of them, or reports that too few are left, or the end |
| `BlobIterator.RunGroups` | blobby/src/lib.rs:269-302 | for every number of calls, what each call of a group iterator returns |
| `BlobIterator.GroupedIteration` | blobby/src/lib.rs:284-299 | k / N groups that flatten to the first N * (k / N) blobs, then an error exactly when N does not divide k |
| `BlobEncoder.BuildIndex` | blobby/src/lib.rs:160-183 | the index holds exactly the non-empty repeated blobs, by rank, count and content, each descending |
| `BlobEncoder.IndexUnique` | blobby/src/lib.rs:170-183 | a list of blobs has only one index, so the encoded data are determined by it |
| `BlobEncoder.CountBlobs` | blobby/src/lib.rs:160-168 | the map holds the number of occurrences of every non-empty blob |
| `BlobEncoder.SortByKey` | blobby/src/lib.rs:175-182 | a stable sort of the keys: a permutation, ascending by key and, among equal keys, by content |
| `BlobEncoder.ReverseIndex` | blobby/src/lib.rs:186 | the position of every blob of the index, and of nothing else |
| `BlobEncoder.EncodeBlobs` | blobby/src/lib.rs:155-208 | the output is the printed store, with references for indexed blobs and literals for the others; it fails exactly when a number does not fit |
| `BlobEncoder.EncodableIff` | blobby/src/lib.rs:188-205 | exactly which lists can be encoded, by blob lengths and the number of repeated blobs |
| `BlobEncoder.RoundTrip` | blobby/src/lib.rs:155-265 | exactly the lists with few enough repeated blobs and short enough blobs are encoded, and iterating over the result gives the list, empty and repeated blobs included, and then the end forever |
| `BlobIndexOrder.IndexOrderIsOptimal` | blobby/src/lib.rs:170-205 | no order of the index that keeps `[0]` and `[1]` in front gives a shorter store |
| `BlobIndexOrder.ReferencesAreCheapest` | blobby/src/lib.rs:175-199 | the emitted order spends the fewest bytes on references, by exchange |
| `BlockSplit.SplitSpec` | block-buffer/src/sealed.rs:37-94 | a split keeps every byte, cuts blocks of the block size and makes len / BS (eager) or (len - 1) / BS (lazy) of them |
| `BlockSplit.SplitAppend` | block-buffer/src/lib.rs:118-152 | splitting may stop anywhere and go on from the rest |
| `BlockSplit.SplitBlocksIsSplit` | block-buffer/src/sealed.rs:38-94 | the index arithmetic of `split_blocks` cuts the same blocks, for both kinds |
| `BlockBuffer.BlockBuffer.DigestBlocks` | block-buffer/src/lib.rs:118-152 | the blocks given to `compress` and the buffered bytes are the split of the old data and the input; at most two calls, none of them empty |
| `BlockBuffer.DigestChunks` | block-buffer/src/lib.rs:118-152 | blocks and state after any chunks are those of the whole message |
| `BlockBuffer.BlockBuffer.DigestPad` | block-buffer/src/lib.rs:228-249 | one or two blocks hold the data, the delimiter, fewer than BS zeros and the suffix; position 0 remains |
| `BlockBuffer.BlockBuffer.PadWithZeros` | block-buffer/src/lib.rs:162-168 | the data filled up with zeros; the buffer is empty afterwards |
| `BlockBuffer.BlockBuffer.Set` | block-buffer/src/lib.rs:195-199 | the buffer holds exactly the bytes before the position |
| `BlockBuffer.BlockBuffer.SetPos` | block-buffer/src/sealed.rs:23-65 | the position is stored without touching any byte that counts as data |
| `BlockBuffer.TryNew` | block-buffer/src/lib.rs:104-113 | a buffer with the given data, exactly when the length is legal for the kind |
| `HashPadding.Hash` | block-buffer/src/lib.rs:118-249 | any chunks followed by `digest_pad` feed `compress` the message, the delimiter, the zeros and the suffix |
| `HashPadding.ZeroCountUnique` | block-buffer/src/lib.rs:238-247 | the number of zeros is the only one below the block size that fills the last block |
| `HashPadding.PaddingInjective` | block-buffer/src/lib.rs:228-249 | with a non-zero delimiter and suffixes of one length, equal streams come from equal messages and suffixes |
| `HashPadding.Len64IsFips` | block-buffer/src/lib.rs:251-256 | bit for bit the padding of section 5.1.1 of FIPS 180-4 |
| `HashPadding.Len128IsFips` | block-buffer/src/lib.rs:265-270 | bit for bit the padding of section 5.1.2 of FIPS 180-4 |
| `HashPadding.FipsZerosSmallest` | block-buffer/src/lib.rs:251-270 | the number of zero bits is the smallest solution of the congruence in sections 5.1.1 and 5.1.2 of FIPS 180-4 |
| `HashPadding.HashLen64Be` | block-buffer/src/lib.rs:254-256 | a whole run over any chunks with the big-endian 64-bit length |
| `HashPadding.HashLen64Le` | block-buffer/src/lib.rs:261-263 | a whole run over any chunks with the little-endian 64-bit length |
| `HashPadding.HashLen128Be` | block-buffer/src/lib.rs:268-270 | a whole run over any chunks with the big-endian 128-bit length |
| `BlockSerialize.Serialize` | block-buffer/src/lib.rs:274-314 | the bytes depend on the data alone, not on stale bytes of the buffer, for both kinds |
| `BlockSerialize.Deserialize` | block-buffer/src/lib.rs:286-334 | accepts exactly the bytes of some buffer, and restores data that serialize to the same bytes |
| `BlockSerialize.RestoreAndRun` | block-buffer/src/lib.rs:272-334 | original and restored buffer give the same results on every later sequence of operations, refused ones included |
| `BlockSerialize.RunScript` | block-buffer/src/lib.rs:90-270 | every sequence of operations is a function of kind, size and data |
| `ReadBuffer.ReadBuffer.Read` | block-buffer/src/read.rs:78-110 | output and unread bytes continue the unread bytes of before with newly generated blocks, and no more blocks than needed |
| `ReadBuffer.ReadAll` | block-buffer/src/read.rs:78-110 | for every sequence of sizes the output is a prefix of the generated stream and `gen_block` is called ceil(total / BS) times |
| `ReadBuffer.ReadBuffer.Serialize` | block-buffer/src/read.rs:114-122 | the bytes depend on the unread bytes alone |
| `ReadBuffer.Deserialize` | block-buffer/src/read.rs:126-135 | accepts exactly the bytes of some buffer |
| `ReadBuffer.RestoreAndRead` | block-buffer/src/read.rs:112-135 | original and restored buffer read on alike, for every later sequence of sizes |
| `Padding.Pad` | block-padding/src/lib.rs:101-355 | the block in place: data up to the position, then the scheme's tail |
| `Padding.Unpad` | block-padding/src/lib.rs:111-360 | the scans of all schemes compute the specified result |
| `Padding.CanonicalUnpad` | block-padding/src/lib.rs:143-320 | for strict PKCS#7 (section 6.3 of RFC 5652), ANSI X9.23 and ISO 7816, `unpad` returns d if and only if the block is d with its padding |
| `Padding.LenientUnpad` | block-padding/src/lib.rs:143-219 | what ISO 10126 accepts, and that it undoes its own padding |
| `Padding.PadThenUnpad` | block-padding/src/lib.rs:56-73 | padding a whole message and `unpad_blocks` is the identity for every reversible scheme |
| `Padding.UnpadBlocksIff` | block-padding/src/lib.rs:56-73 | for strict PKCS#7, ANSI X9.23 and ISO 7816, `unpad_blocks` returns m if and only if the blocks are the padded m, and fails on everything else |
| `Padding.LenientUnpadBlocks` | block-padding/src/lib.rs:56-73 | for ISO 10126 it cuts as many bytes as the last byte says, if that is between one and a block, and fails otherwise |
| `Padding.TotalUnpadBlocks` | block-padding/src/lib.rs:56-73 | without padding it returns all bytes; with zero padding it cuts the zeros at the end of the last block and nothing else; neither fails |
| `Padding.TailBytes` | block-padding/src/lib.rs:101-320 | the bytes that fill up a block, scheme by scheme |
| `Padding.WhatPadTakes` | block-padding/src/lib.rs:101-355 | the block sizes and positions without a panic |
| `Padding.ZeroPadThenUnpad` | block-padding/src/lib.rs:56-119 | zero padding loses exactly the trailing zeros of the last block |
| `InOut.IntoPaddedBlocks` | inout/src/reserved.rs:134-181 | fails exactly when the scheme cannot pad the message or the padded message does not fit; otherwise blocks and tail are the padded message |
| `InOut.ProcessBlocks` | inout/src/inout_buf.rs:279-303 | block by block through the iterator, the same for one array, two arrays or apart ranges of one; nothing else is written |
| `InOut.ProcessPadded` | inout/src/reserved.rs:195-226 | writing E of every block and of the tail gives E applied blockwise to the padded message |
| `InOut.PadProcessUnpad` | inout/src/reserved.rs:134-226 | pad, encrypt, decrypt in place and unpad returns the message, or the message without the zeros at the end of its last block for zero padding |
| `InOut.PadProcessUnpadInPlace` | inout/src/reserved.rs:27-40 | the same from a message in front of one buffer; it fails when the message is longer than the buffer |
| `InOut.PadProcessUnpadBetween` | inout/src/reserved.rs:100-114 | the same from one buffer to another, with the same result |
| `InOut.AllItems` | inout/src/inout_buf.rs:273-303 | for every number of calls, the offsets of every item once and in order, and then nothing forever |
| `InOut.SplitCovers` | inout/src/inout_buf.rs:191-208 | both parts are valid, keep the memory and follow each other on both sides |
| `InOut.ProcessInTwo` | inout/src/inout_buf.rs:191-208 | processing the parts of a split buffer one after the other is processing the buffer, in place as well |
| `InOut.ChunksCover` | inout/src/inout_buf.rs:212-236 | chunks and tail are valid, keep the memory, start where the buffer starts, follow each other and cover it |
| `InOut.XorInToOut` | inout/src/inout_buf.rs:247-256 | a bit of the output is set exactly if the bits of the old input and of the key differ, in place as well; nothing else is written |
| `InOut.XorTwiceInPlace` | inout/src/inout_buf.rs:247-256 | applying a key stream twice in place restores the buffer |
| `InOut.XorIsCipher` | inout/src/inout_buf.rs:247-256 | xoring blocks with a key byte is a permutation of the kind that the end-to-end result asks for |
| `InOut.FromMutSlice` | inout/src/reserved.rs:27-40 | fails exactly when the message is longer than the buffer; both sides are that buffer, with the given message length |
| `InOut.FromSlices` | inout/src/reserved.rs:100-114 | fails exactly when the input is longer than the output; input and output are the given buffers, and the whole input is the message |
| `FeatureCache.CacheIsSafe` | cpufeatures/src/lib.rs:84-137 | in every interleaving of any number of threads, every value returned is the detected one, no token holder can load UNINIT, and no thread detects twice |
| `FeatureCache.EveryCallAnswers` | cpufeatures/src/lib.rs:106-123 | in every run, each begun `init_get` has answered with a token or is about to store, each detection ends in one store, and each `token.get()` answers |
| `FeatureCache.LoadAnswers` | cpufeatures/src/lib.rs:106-123 | a thread can load every value not older than its view; a stored value is the answer, with a token |
| `FeatureCache.StoreAnswers` | cpufeatures/src/lib.rs:110-114 | after a detection the store can enter the order anywhere behind the view, and is the answer, with a token |
| `FeatureCache.TokenAnswers` | cpufeatures/src/lib.rs:94-101 | a token holder can load every value not older than its view, and each load is an answer |
| `FeatureCache.HandOver` | cpufeatures/src/lib.rs:87-88 | what a receiver of a token holds and knows |
| `FeatureCache.StaleLoads` | cpufeatures/src/lib.rs:106-114 | a run in which a thread misses a stored value and detects as well |
| `FeatureCache.GoodStep` | cpufeatures/src/lib.rs:94-123 | every step of every thread keeps the invariant, wherever its store enters the modification order, unless it hands over a token without synchronisation |
| `FeatureCache.NoLaterDetection` | cpufeatures/src/lib.rs:50-51 | after a thread has seen a stored value, it never detects again |
| `FeatureCache.HolderLoadsUninitIff` | cpufeatures/src/lib.rs:87-101 | in every run, hand-overs without synchronisation included, a token holder can load UNINIT if and only if its thread has seen no stored value; `init_get` is still right, and no token claims a missing feature |
| `FeatureCache.UnsynchronisedTokenFails` | cpufeatures/src/lib.rs:87-101 | a run in which a token handed over without synchronisation, which takes unsafe code, answers wrongly |
| `GaloisDouble.Dbl64` | dbl/src/lib.rs:44-52 | x times the block modulo x^64 + x^4 + x^3 + x + 1 |
| `GaloisDouble.InvDbl64` | dbl/src/lib.rs:55-63 | the block whose product with x is the input |
| `GaloisDouble.Dbl128` | dbl/src/lib.rs:68-86 | x times the block modulo x^128 + x^7 + x^2 + x + 1, the doubling of section 2.3 of RFC 5297 |
| `GaloisDouble.InvDbl128` | dbl/src/lib.rs:89-108 | the block whose product with x is the input |
| `GaloisDouble.Dbl256` | dbl/src/lib.rs:113-141 | x times the block modulo x^256 + x^10 + x^5 + x^2 + 1 |
| `GaloisDouble.InvDbl256` | dbl/src/lib.rs:144-174 | the block whose product with x is the input |
| `GaloisDouble.DoubleIsProduct` | dbl/src/lib.rs:25-32 | doubling is the only block congruent to x times the input, for every width and modulus |
| `GaloisDouble.Inverse` | dbl/src/lib.rs:34-39 | halving and doubling undo each other for every modulus with the term 1 |
| `GaloisDouble.RepeatedInverse` | dbl/src/lib.rs:34-39 | k doublings are undone by k halvings, and conversely, for every k |
| `GaloisDouble.Linear` | dbl/src/lib.rs:25-32 | doubling is linear |
| `HexComments.ExcludingComments.NextByte` | hex-literal/src/comments.rs:68-88 | the loop delivers the bytes of the automaton one by one |
| `HexComments.ExcludingComments.Next` | hex-literal/src/comments.rs:24-36 | the visible bytes one by one, then the end or the panic that the last state calls for |
| `HexComments.InsideComment` | hex-literal/src/comments.rs:82-85 | inside a comment the state is the parity of the run of stars |
| `HexComments.CommentCloses` | hex-literal/src/comments.rs:82-85 | a comment closes exactly at a slash after an odd run of stars |
| `HexComments.FirstEndCloses` | hex-literal/src/comments.rs:39-50 | the first `*/` closes the comment if and only if an even number of stars precedes it |
| `HexComments.ThreeStarsStayOpen` | hex-literal/src/comments.rs:39-50 | `/***/` is reported as not terminated |
| `HexLiteral.TokenTreeIter.NextHexVal` | hex-literal/src/lib.rs:113-126 | the next digit of the visible bytes, white space skipped, or the panic that ends them |
| `HexLiteral.TokenTreeIter.Next` | hex-literal/src/lib.rs:139-153 | two digits become a byte, bytes and commas take turns, and an odd digit panics |
| `HexLiteral.Collect` | hex-literal/src/lib.rs:92-106 | all tokens of one literal, or its first panic |
| `HexLiteral.Hex` | hex-literal/src/lib.rs:159-169 | the tokens of all literals, or the first panic |
| `HexLiteral.DigitTables` | hex-literal/src/lib.rs:113-126 | the parser reads exactly the digits of the two tables "0123456789abcdef" and "0123456789ABCDEF", each with its place in the table |
| `HexLiteral.HexPipeline` | hex-literal/src/lib.rs:113-168 | literals that print byte strings with digits from those tables, with space, carriage return, newline, tab and comments between digits, become each byte followed by one comma, concatenated |
| `HexLiteral.AcceptedIff` | hex-literal/src/lib.rs:92-153 | a literal is accepted if and only if it is made of paired digits, white space and comments, the last of which may be a line comment that the literal ends |

## Left out

- zeroize, cmov, collectable, hybrid-array, opaque-debug and wycheproof2blb: volatile writes, inline assembly, thin wrappers and file conversion.
- Parsing and printing of Rust code, attributes and token streams in fiat-constify and hex-literal: the models start from a syntax tree and from the bytes of a literal.
- Straight-line code is all that fiat-constify's model covers: no nested blocks, loops or calls inside expressions, which fiat-crypto does not emit.
- Types and `mut` of the `let` statements in rewritten programs: the tool keeps them, and the original is taken to compile. Bindings that the tool itself adds are covered: `let (..)` binds immutably.
- Types other than integers and arrays of integers have no values in the model of fiat-constify, so functions with such outputs have no meaning there.
- ConstifyFile.MeaningPreserved: says nothing about calls that the original program gives no meaning.
- Integer widths in rewritten programs: operators are arbitrary functions on integers, so any wrap-around is inside them.
- Grouping of blocks into calls of `compress` is kept for `digest_blocks`, but runs over several chunks only list the blocks.
- Raw pointers, lifetimes, alignment and `unreachable_unchecked`: slices are sequences or ranges of arrays.
- `InOutBufReserved::get_out_len`, which returns the input length, and the plain getters of all crates.
- CPU feature detection itself, and the compile-time shortcut when all features are enabled.
- Escapes in string literals: the bytes between the quotes are taken as they stand in the source.

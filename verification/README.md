# Verification model of a 7-zip archive library

The project models the parts of the library whose behaviour is hard to see from one function, and
proves properties of them:

- **Branch filters and their streaming reader** (`Words`, `BcjOperand`, `Bcj`, `BranchWord`,
  `BranchFilters`, `BraStream`, `BraReader`). The x86 filter rewrites a buffer in place and looks at
  bytes that later conversions overwrite; decoding still takes the branch that encoding took at every
  position. ARM, ARM64, PPC and SPARC rewrite words. The reader delivers the conversion of the whole
  stream for every sequence of read sizes. Where each branch goes is stated in integers, without the
  words of the filters (`WordValues`, `BcjTargets`, `BranchTargets`).
- **The archive header** (`HeaderData`, `HeaderNumbers`, `HeaderStreams`, `HeaderFiles`,
  `HeaderRoundTrip`, `HeaderWriter`, `HeaderReader`, `HeaderFilesReader`). Printing followed by parsing
  succeeds, takes every byte, and gives the header back in a stated normal form, in which no file
  changes its place. Headers that other writers padded with dummy properties parse alike
  (`HeaderPadding`); a header cut short anywhere is refused (`HeaderCut`), as is everything else that is not
  supported (`HeaderRefusals`). Small parts are stated byte by byte (`HeaderBytes`).
- **The folder graph** (`FolderGraph`). One pass over the coders connects them; its result is the tree
  that the graph describes, with every coder and packed stream in it once.
- **Placement of parsed archives** (`Placement`, `ParsedStreams`, `ParsedPlacement`). Whoever wrote an
  archive: when its sizes add up, each file lies behind the earlier files of its folder, and the files
  of a folder fill it. When they do not, the exact condition that fails is stated.
- **Writer to reader** (`ArchiveState`, `ArchiveWriter`, `ArchiveHeader`, `FolderDecoding`,
  `EndToEnd`). For every run of a writer, solid, sequential or concurrent, the reader finds for each
  file exactly the bytes written to it.
- **Encrypted folders** (`EncryptedFolder`). Any compressor that can be inverted makes folders that lose
  nothing, alone or in front of the block cipher, so that the same holds of encrypted archives.
- **The reader pool** (`ReaderPool`, `FolderFiles`, `PooledReading`). Files of a folder are read through
  readers that were left part way; what is read does not depend on which reader is used, and for an
  archive that was written it is what was written.
- **Stream transformers** (`Bcj2`, `DeltaFilter`, `CbcStreams`) and **the name index** (`PathNames`,
  `ValidNames`, `NameIndex`). For BCJ2 there is an encoder, which the library does not have: whatever
  branches it moves, the decoder gives its input back (`Bcj2Encoder`).

`Basics` holds what several modules share.

Code that changes state is modelled by classes and methods over arrays and fields. Each is proved
against a function or predicate on values, and the lemmas are about those. Header code appears three
times: `Put…` functions give the bytes, `Get…` functions the result of reading with the bytes left
over, and the methods `Write…` and `Read…` are the loops of the source, proved equal to them.

Uninterpreted parts: a compressor is a streaming function with an inverse (`ArchiveState.Codec`), a
checksum is any function of bytes (`ArchiveHeader.Checksum`), a block cipher any permutation of
16-byte blocks (`CbcStreams.Cipher`), a decoder any function of a coder and its input streams
(`FolderDecoding.CoderRun`), and whether a coder's reader can be made is an input of
`FolderGraph.FolderReader`.

Where the code is narrower than the format, or does something its callers may not expect, the model
follows the code:

- `readPackInfo` refuses zero streams, so an archive that holds only directories is written but does
  not read back (`EndToEnd.NoFoldersRefused`). With all files closed, what is written can be read again
  if and only if some file has data or there is no file (`EndToEnd.ReadableIff`).
- The ARM filter takes a counter of zero for a fresh start. Two passes agree with one, encoding or
  decoding, if and only if the counter between them is not zero or the second finds no branch
  (`BranchFilters.ArmRestarts`); streams are shorter than that.
- The ARM64 filter keeps 18 of the 21 bits of an ADRP displacement. The page it writes is the one that is
  meant if and only if that one can be reached by 18 bits (`BranchTargets.AdrpExact`,
  `BranchTargets.OutOfReach`).
- A dummy property whose declared length is 2^63 or more is not passed over at all
  (`HeaderPadding.DummyIs`).
- `Put` of the pool at an offset that is taken neither keeps nor closes the reader
  (`ReaderPool.Pool.Put`).
- `Close` of the writer closes only the current file. In a concurrent archive folders behind the first
  one left open are held back; nothing is held back exactly when every folder was closed
  (`ArchiveWriter.WrittenAll`).
- The parser counts files with a stream, and the placement loop those that are not marked empty either.
  A later empty-stream property can leave a file that is marked as an empty file but has a stream; then
  files behind it get the size of one place and the offset of another
  (`ParsedPlacement.StrayParses`, `ParsedPlacement.StrayMisplaced`). Both counters agree at a file if
  and only if no such file precedes it (`ParsedPlacement.CountersAgree`).
- The last size of a folder is a difference modulo 2^64. The files of a parsed folder fill it if and only
  if the sizes that were written leave something, or nothing, for the last
  (`ParsedPlacement.ParsedTiled`).
- The BCJ2 code starts inside its range exactly when the first of its five bytes is zero and the others
  are not all ones (`Bcj2.ReadCloser.constructor`). Once inside it stays inside for all bits
  (`Bcj2.BitsKeepRange`). Outside it every bit is one, until the code overflows its 64 bits; then it may
  come back inside (`Bcj2.RangeKept`, `Bcj2.ComesBack`). The range itself stays wide for every stream.
- The delta reader never reports the end of its source: it answers with no bytes and no error
  (`DeltaFilter.ReadCloser.Read`).
- Every coder is read up to its listed size, as an int64. The size listed for the cipher cuts its padding
  off, and nothing at all is read of a stream of 2^63 bytes or more (`FolderDecoding.LimitedWhole`,
  `EncryptedFolder.EncryptedGives`).
- In a concurrent archive, `Close` of a file that is still open after `Close` of the writer sends on a
  closed channel, and panics (`ArchiveWriter.Writer.CloseFile`).
- A second `Close` of the encryptor writes the encryption of a block of zeros, if and only if the length
  written was not a multiple of 16 (`CbcStreams.CloseTwice`). The writer calls it once.

## Model

| member | source | states |
|---|---|---|
| BcjOperand.OperandInverts | internal/bra/bcj.go:67-97 | an operand whose top byte is 00/FF and whose guarded byte is not stays such an operand after encoding, and decoding restores it |
| BcjTargets.OperandValue | internal/bra/bcj.go:67-97 | as numbers, the operand written is the old one moved by the address, and moved again with its low bytes flipped where the guarding byte asks for it, modulo 2^25; its top byte is the sign of bit 24 |
| BcjTargets.ConvertsIff | internal/bra/bcj.go:54-66 | a position is converted if and only if it holds E8 or E9, its last byte is 00 or FF, and no position pending before it has such a last byte of its own |
| BcjTargets.FirstResolved | internal/bra/bcj.go:39-97 | a scan leaves the opcode, resolves a branch from the address of the next instruction, both ways and for every mask, and goes on behind it; anything else is passed over |
| Bcj.NewOperandInverts | internal/bra/bcj.go:67-97 | the four bytes written by an encoding conversion convert back, at the same mask and position |
| Bcj.RunShape | internal/bra/bcj.go:39-52 | a scan keeps the length, leaves fewer than five bytes unfinished, and those unchanged |
| Bcj.PendingKept | internal/bra/bcj.go:54-66 | bytes that a decision in the last three positions looked at are either untouched by the rest of an encoding scan or still not 00/FF |
| Bcj.StillSkipped | internal/bra/bcj.go:54-66 | a position that was passed over when encoding is passed over when decoding |
| Bcj.DecodeEncode | internal/bra/bcj.go:21-99 | decoding an encoded buffer from the same mask and counter restores it and ends with the same count, mask and counter |
| Bcj.RunResumes | internal/bra/bcj.go:39-52 | a scan may be cut anywhere: resuming over its unfinished bytes and the rest equals one scan |
| Bcj.Filter.Convert | internal/bra/bcj.go:21-99 | the loop with positions and a shifted mask does what the byte-by-byte scan does: buffer, return value, counter and state; `BcjTargets.FirstResolved` says what that is |
| Bcj.Filter.ConvertAt | internal/bra/bcj.go:67-97 | the in-place rewriting of one operand is one step of the scan |
| Bcj.EncodeThenDecode | internal/bra/bcj.go:21-99 | two filter objects in one state, encoding then decoding in place, restore the buffer and agree on count, counter and state |
| BranchWord.BlInverts | internal/bra/arm.go:26-43 | an ARM BL word minus its plus-encoded displacement is the word, modulo 24 bits |
| BranchWord.BInverts | internal/bra/ppc.go:21-37 | a PPC branch is restored, its two low bits untouched |
| BranchWord.CallInverts | internal/bra/sparc.go:21-44 | the sign-extended SPARC displacement is restored although only 25 bits are rewritten |
| BranchWord.Bl64Inverts | internal/bra/arm64.go:24-38 | an ARM64 BL word is restored |
| BranchWord.AdrpInverts | internal/bra/arm64.go:40-69 | an ADRP word is restored, with the carry of the biased page and the register field |
| BranchWord.WordMatches | internal/bra/arm64.go:16-73 | a word is a branch after conversion exactly when it was one before, and any other word stays what it is |
| BranchWord.WordInverts | internal/bra/arm64.go:16-73 | converting a word and back at one address is the identity, for all four filters |
| WordValues.PlusValue | internal/bra/bcj.go:67-75 | adding 32-bit words adds their numbers modulo 2^32 |
| BranchTargets.BlTarget | internal/bra/arm.go:26-43 | an ARM BL moves by a quarter of the address modulo 2^24, and stays a BL |
| BranchTargets.BTarget | internal/bra/ppc.go:21-37 | a PPC branch moves by the address modulo 2^26, and stays one |
| BranchTargets.CallTarget | internal/bra/sparc.go:21-44 | four times a SPARC call moves by the address modulo 2^25, and it stays a call |
| BranchTargets.Bl64Target | internal/bra/arm64.go:24-38 | an ARM64 BL moves by a quarter of the address modulo 2^26, and stays a BL |
| BranchTargets.AdrpMeans | internal/bra/arm64.go:40-53 | the words converted are the ADRP whose 21-bit displacement has 18 bits and a sign |
| BranchTargets.AdrpTarget | internal/bra/arm64.go:55-69 | that displacement moves by the page of the address modulo 2^18 and has 18 bits again; opcode and register stay |
| BranchTargets.AdrpExact | internal/bra/arm64.go:55-69 | it is the 21-bit displacement that is meant if and only if that one has 18 bits |
| BranchTargets.OutOfReach | internal/bra/arm64.go:55-69 | a word and an address for which it has not |
| BranchFilters.MapInverts | internal/bra/sparc.go:16-48 | encoding then decoding every word of a buffer restores the buffer, its tail included |
| BranchFilters.OneResolves | internal/bra/arm64.go:16-73 | one word of four bytes becomes the branch with the displacement moved by its address, or stays if it is none |
| BranchFilters.MapResolves | internal/bra/arm.go:16-47 | that is what happens to every whole word of a buffer, at its own address |
| BranchFilters.FreshAddress | internal/bra/arm.go:21-23 | in a new filter that address is the place in the stream, for ARM eight bytes further |
| BranchFilters.MapSplits | internal/bra/ppc.go:16-41 | a buffer may be cut at a word: the second part continues at the counter the first one leaves |
| BranchFilters.ConvertedInverts | internal/bra/arm.go:16-47 | encoding then decoding from one counter gives back buffer, count and counter |
| BranchFilters.ArmRestarts | internal/bra/arm.go:21-23 | for all bytes cut at a word, both ways, two passes agree with one if and only if the counter between them is not zero or the second part has no branch |
| BranchFilters.ArmShifted | internal/bra/arm.go:26-43 | starting one word further changes the result if and only if there is a branch |
| BranchFilters.Filter.ArmWord | internal/bra/arm.go:28-43 | one ARM word in place: the byte test picks the branches, and the counter goes past it |
| BranchFilters.Filter.Arm64Word | internal/bra/arm64.go:24-70 | one ARM64 word in place, with its two kinds of instruction |
| BranchFilters.Filter.PpcWord | internal/bra/ppc.go:21-38 | one PPC word in place, big-endian |
| BranchFilters.Filter.SparcWord | internal/bra/sparc.go:21-45 | one SPARC word in place, big-endian |
| BranchFilters.Filter.Convert | internal/bra/arm.go:16-47 | the loop of the four filters converts every whole word in place, keeps the tail and the counter a multiple of four; only the ARM one starts over from zero |
| BraStream.ConvertResumes | internal/bra/reader.go:50-60 | a conversion may be cut anywhere: what it leaves unconverted goes in front of the rest |
| BraStream.ReadDelivers | internal/bra/reader.go:36-65 | a read gives the next bytes of the one-go conversion, at least one of them unless none is left, and only then the end |
| BraStream.ReadsDeliver | internal/bra/reader.go:36-65 | for every sequence of read sizes the bytes are a prefix of the one-go conversion, and all of it after enough reads |
| BraStream.EncodedStreamDecodes | internal/bra/reader.go:36-76 | a reader over an encoded buffer delivers the buffer, for every sequence of read sizes |
| BraReader.Converter.Decode | internal/bra/reader.go:56-58 | each filter object converts as its value does |
| BraReader.ReadCloser.Read | internal/bra/reader.go:36-65 | the buffering code with its converted count is one read of the stream; after Close nothing is read |
| BraReader.ReadCloser.Close | internal/bra/reader.go:22-34 | a second Close reports it and changes nothing |
| HeaderNumbers.Uint64RoundTrip | types.go:75-98 | every 64-bit number is read back from its bytes, with any bytes behind them left over |
| HeaderNumbers.Uint64Shortest | write_types.go:14-72 | no byte string that reads as a number is shorter than the one written for it |
| HeaderNumbers.BoolsRoundTrip | write_types.go:75-97 | packed bits come back, for every number of them up to the limit |
| HeaderNumbers.OptionalBoolsRoundTrip | types.go:145-165 | bits with the all-ones shorthand come back |
| HeaderNumbers.SizeListRoundTrip | types.go:167-187 | a list of sizes comes back |
| HeaderNumbers.ValuesRoundTrip | types.go:200-206 | optional fixed-width values come back at the places where they are defined |
| HeaderNumbers.CRCRoundTrip | types.go:189-210 | checksums come back, undefined ones as zero |
| HeaderStreams.PackInfoRoundTrip | types.go:213-260 | pack info comes back, with sizes and checksums left out or complete |
| HeaderStreams.CoderRoundTrip | types.go:263-311 | a coder comes back through its flag byte |
| HeaderStreams.FolderRoundTrip | types.go:314-388 | a folder comes back without its sizes; one packed stream is not written but found again |
| HeaderStreams.UnpackInfoRoundTrip | types.go:391-484 | folders come back with their sizes, which are written behind all of them |
| HeaderStreams.SharesRoundTrip | types.go:523-545 | the last size of every folder, never written, is what the others leave of its unpack size |
| HeaderStreams.SubStreamsInfoRoundTrip | types.go:487-569 | counts, sizes and checksums come back; sizes are gone exactly when no folder has two files |
| HeaderStreams.StreamsInfoRoundTrip | types.go:572-622 | the three sections come back in normal form |
| HeaderFiles.NamesSplit | types.go:669-722 | names without a zero unit are found again between the zeros |
| HeaderFiles.EmptyFilesTurn | types.go:814-827 | empty-file bits go to the files without a stream, in their order |
| HeaderFiles.FilesInfoRoundTrip | types.go:773-885 | the file list comes back property by property |
| HeaderPadding.DummyIs | types.go:875-876 | a dummy property is passed over by its declared length, or fails if there is less; a length of 2^63 or more passes over nothing |
| HeaderPadding.UnknownRefused | types.go:873-880 | a start position or an unknown property is refused |
| HeaderPadding.DummiesTurn | types.go:875-876 | any number of dummies in a row changes nothing |
| HeaderPadding.PaddedFilesRead | types.go:773-885 | a file section with any dummies between any two properties parses to the files without them |
| HeaderRoundTrip.FindFolderIs | struct.go:219-229 | the folder found is the one whose running count passes the file |
| HeaderRoundTrip.NormalKeepsPlaces | struct.go:212-243 | leaving out implied sizes changes neither folder nor size nor checksum of any file, nor which files have none |
| HeaderRoundTrip.HeaderRoundTrip | types.go:888-958 | a printed header parses to its normal form, leaving exactly the bytes behind it |
| HeaderPadding.PaddedHeaderRead | types.go:888-958 | a header with such a file section parses to its normal form, leaving exactly the bytes behind it |
| HeaderCut.HeaderSame | types.go:888-958 | for all bytes: what is read depends only on the bytes taken, so anything may follow a header that can be read |
| HeaderCut.CutRefused | types.go:888-958 | of a header of which nothing is left over, no smaller part can be read |
| HeaderCut.PrintedCutRefused | types.go:888-958 | a printed header that is cut short anywhere is refused |
| HeaderRefusals.CountsRefused | types.go:59-73 | a count of packed streams, folders, coders or files that is zero or above 2^32 - 1 is refused, each with its error |
| HeaderRefusals.EmptyFilesFirst | types.go:814-818 | a property of empty files is refused unless empty streams came before it |
| HeaderRefusals.NoFilesNoChecksums | types.go:547-562 | when all folders are said to be empty, a list of checksums is refused |
| HeaderRefusals.PackIdRefused | types.go:255-257 | in pack info anything but sizes, checksums or the end is refused |
| HeaderRefusals.FoldersIdRefused | types.go:391-400 | unpack info starts with the folders |
| HeaderRefusals.SizesIdRefused | types.go:436-482 | behind the folders only their sizes, and behind those only checksums or the end |
| HeaderRefusals.SubStreamsIdRefused | types.go:564-566 | the substreams section starts with counts, sizes, checksums or the end |
| HeaderRefusals.StreamsIdRefused | types.go:572-620 | the streams sections come in their order, or the end |
| HeaderRefusals.FoldersMissing | types.go:602-605 | substreams without folders have an error of their own |
| HeaderRefusals.HeaderIdRefused | types.go:888-940 | archive properties and additional streams are not supported; any other unknown start is refused |
| HeaderRefusals.ExternalRefused | types.go:407-424 | folders, names, times or attributes kept elsewhere are refused |
| HeaderRefusals.NamesTaken | types.go:685-728 | a names property takes its declared length less one, for every length: of those bytes come the names, whose number must match |
| HeaderRefusals.NoNames | types.go:685-728 | a declared length of zero or one, or above 2^63, leaves no names, and is refused |
| HeaderRefusals.UnpackSizeIs | struct.go:173-185 | the unpack size is the size of the last output that no bind pair takes; if there is none, of the last output |
| HeaderBytes.MiddleNumber | write_types.go:14-72 | the three bytes of a number below 2^21 that has no shorter form |
| HeaderBytes.LargeNumber | write_types.go:14-72 | the nine bytes of a number that needs all |
| HeaderBytes.BoolsBytes | write_types.go:75-97 | bits make bytes eight by eight, the first one the highest, with zeros behind the last |
| HeaderBytes.PlainFolder | writer.go:583-627 | the five bytes of a folder with a compressor |
| HeaderBytes.SecretFolder | writer.go:583-627 | the bytes of a folder with a cipher in front: both method ids, the properties, and the pair that feeds the compressor |
| HeaderBytes.ManyStreams | write_struct.go:33-56 | the bytes of a coder with several streams: inputs, then outputs |
| HeaderBytes.ManyPacked | write_struct.go:58-75 | the numbers of several packed streams end the folder |
| HeaderBytes.OneStreamBytes | write_struct.go:166-187 | the bytes of the streams section for one file |
| HeaderBytes.OneFileBytes | write_struct.go:230-329 | the bytes of the file section for one file with name, three times and attributes |
| HeaderBytes.NamedBytes | write_struct.go:230-329 | the bytes of the file section for one file with only a name, with data, a directory, or an empty file |
| HeaderBytes.TwoAttributes | write_struct.go:300-325 | the bytes of the attributes of two files of which one has none |
| HeaderBytes.OneHeaderBytes | write_struct.go:331-348 | the bytes of a header with one file |
| HeaderBytes.TwoInOne | write_struct.go:110-164 | the bytes of the section for two files in one folder: their number, one size, two checksums |
| HeaderWriter.WriteUint64 | write_types.go:16-72 | the nine branches emit the shortest form |
| HeaderWriter.WriteBool | write_types.go:75-97 | the bit loop emits the packed bits |
| HeaderWriter.WriteOptionalBool | write_types.go:101-116 | the search for a false bit chooses the shorthand |
| HeaderWriter.WriteSizes | write_types.go:119-126 | appends the list |
| HeaderWriter.WriteCRC | write_types.go:129-143 | appends bits and the defined values |
| HeaderWriter.WritePackInfo | write_struct.go:10-31 | appends the section that parses to this pack info |
| HeaderWriter.WriteCoder | write_struct.go:33-56 | appends the coder that parses back |
| HeaderWriter.WriteFolder | write_struct.go:58-75 | appends the folder; packed indices only when there are several |
| HeaderWriter.WriteUnpackInfo | write_struct.go:77-108 | appends all folders, then all sizes |
| HeaderWriter.WriteShares | write_struct.go:139-148 | the running index skips the last size of each folder, and nothing for empty ones |
| HeaderWriter.WriteSubStreamsInfo | write_struct.go:110-164 | appends counts unless all are one, sizes only if some folder has two files |
| HeaderWriter.WriteStreamsInfo | write_struct.go:166-187 | appends the sections that are present |
| HeaderWriter.WriteEmptyStreams | write_struct.go:233-263 | appends the two bit vectors, the second indexed through the first |
| HeaderWriter.BoolsSize | write_struct.go:244-256 | the declared length of a bit vector is the number of bytes written for it |
| HeaderWriter.WriteTimes | write_struct.go:197-228 | appends a time property only if some file has that time |
| HeaderWriter.WriteNames | write_struct.go:285-298 | appends all names, each with its terminator, and their length |
| HeaderWriter.WriteAttributes | write_struct.go:300-325 | appends attributes if any file has some, zero ones as undefined |
| HeaderWriter.WriteFilesInfo | write_struct.go:230-329 | appends the properties in their order |
| HeaderWriter.WriteHeader | write_struct.go:331-348 | appends the header that HeaderRoundTrip reads back |
| HeaderReader.ReadUint64 | types.go:75-98 | the byte loop agrees with the reading function on value, rest and error |
| HeaderReader.ReadBool | types.go:115-143 | the mask loop agrees with the reading function |
| HeaderReader.ReadCRC | types.go:189-210 | agrees with the reading function |
| HeaderReader.ReadPackInfo | types.go:213-260 | agrees with the reading function, errors included |
| HeaderReader.ReadCoder | types.go:263-311 | agrees with the reading function, errors included |
| HeaderReader.ReadFolder | types.go:314-388 | agrees with the reading function, errors included |
| HeaderReader.ReadUnpackInfo | types.go:391-484 | agrees with the reading function, errors included |
| HeaderReader.ReadShare | types.go:530-543 | one folder's sizes, the last as a uint64 difference; running past the list is an error |
| HeaderReader.ReadSubStreamsInfo | types.go:487-569 | agrees with the reading function, with counts and totals wrapping at 64 bits |
| HeaderReader.ReadStreamsInfo | types.go:572-622 | agrees with the reading function; substreams need folders |
| HeaderFilesReader.ReadNames | types.go:685-728 | agrees with the reading function; the number of names must match |
| HeaderFilesReader.SetEmptyFilesInTurn | types.go:820-827 | the j-th bit goes to the j-th file without a stream; too few bits fail |
| HeaderFilesReader.ReadFilesInfo | types.go:773-885 | the property loop agrees with the reading function, dummies included, and ends |
| HeaderFilesReader.LocateFile | struct.go:212-243 | folder, size and checksum of a file, or an index out of range |
| HeaderFilesReader.ReadHeader | types.go:888-958 | agrees with the reading function, sizes and checksums filled in |
| HeaderFilesReader.WriteThenRead | types.go:888-958 | printing and parsing a well-formed header succeeds with its normal form and nothing left over |
| FolderGraph.DenotesOne | struct.go:283-312 | the graph leaves no choice: a coder denotes at most one tree |
| FolderGraph.ConnectInputs | struct.go:288-299 | a coder's inputs are connected exactly when each has a packed stream or an earlier output |
| FolderGraph.FolderReader | struct.go:260-339 | the pass stops at the first coder with a fault, or gives the tree the graph denotes at the one output left over |
| FolderGraph.PairForward | struct.go:293-298 | when the pass does not stop, a bound output comes from a coder before the one it feeds |
| FolderGraph.RootIsLast | struct.go:173-185 | on a well-formed folder the output left over is the last coder's, and the unpack size is the last coder's size |
| FolderGraph.PackedCount | types.go:369-385 | on a well-formed folder the list of packed inputs has as many entries as the folder has packed streams, found or read |
| FolderGraph.CountParent | struct.go:283-312 | a coder or packed stream occurs as often as the coder it feeds, and once more at the top |
| FolderGraph.WiredOnce | struct.go:260-339 | the wiring is a tree: every coder and every packed stream occurs exactly once |
| FolderGraph.WellFormedOutcome | struct.go:314-330 | on a well-formed folder the pass succeeds if and only if no coder has a fault, and never for want of an unbound stream |
| Placement.FolderAtIs | struct.go:219-229 | the folder of a file is the only one whose files include it |
| Placement.PlaceIs | struct.go:212-243 | folder, size and checksum of a file: a file alone in its folder has the unpack size and the checksum of the folder, any other its own |
| Placement.AloneWithout | struct.go:212-243 | without the substreams section there is one file, at the start of the first folder, and it is as long as that |
| Placement.OffsetStep | reader.go:548-559 | folders of consecutive files do not decrease; the offset goes on in the same folder and restarts in the next |
| Placement.PlaceFiles | reader.go:538-571 | for every list of files: fails exactly when a file with data has no place; otherwise puts the j-th such file in the folder of the j-th place, behind what precedes it there |
| Placement.OffsetOfFile | reader.go:548-562 | when files have the sizes of their places, that is behind all earlier files of the folder |
| Placement.FolderTiled | reader.go:548-562 | the files of a folder, end to end, take up its unpack size if and only if the sizes listed for them add up to it |
| Placement.FileInside | reader.go:548-562 | every file ends inside its folder, and the last one where the folder ends |
| Placement.FolderOffset | struct.go:245-257 | the nested loops give the start of the folder's first packed stream |
| Placement.PackedSections | struct.go:262-278 | sizes come from the streams that earlier folders list, places from the folder's offset; an index out of range otherwise |
| Placement.SectionsMeet | struct.go:262-278 | the packed streams of a folder lie end to end from its start when earlier folders list as many as they have |
| ParsedStreams.ParsedPackInfo | types.go:213-260 | pack info that parses can be printed |
| ParsedStreams.ParsedUnpackInfo | types.go:391-484 | folders that parse can be printed: counts, checks and the implied packed stream are consistent |
| ParsedStreams.LastShare | types.go:541-542 | a last size taken modulo 2^64 makes up the total if and only if the others fit |
| ParsedStreams.SharesAddUp | types.go:523-545 | the sizes of a parsed section add up folder by folder if and only if the written ones fit |
| ParsedStreams.ShareAddsUp | types.go:530-543 | the same for each folder by itself |
| ParsedStreams.SharesFollow | types.go:530-543 | in a parsed section every folder's last size follows from the others, as a uint64 |
| ParsedStreams.ParsedGood | types.go:572-622 | every streams section that parses is well formed |
| ParsedStreams.ParsedPrints | types.go:572-622 | whatever parses can be printed and parses again, to its normal form, sizes that do not fit and counts that wrap included |
| ParsedPlacement.CountersDiffer | types.go:948-955 | the parser's count of files exceeds that of the placement loop by the files marked empty that have a stream |
| ParsedPlacement.CountersAgree | reader.go:548-562 | both counts agree at a file if and only if no such file precedes it |
| ParsedPlacement.StrayParses | types.go:801-827 | ten bytes of properties that leave such a file |
| ParsedPlacement.StrayMisplaced | reader.go:548-562 | the file behind it has the size and checksum of the second place and is looked for at the first |
| ParsedPlacement.FillFills | types.go:946-955 | a file with a stream gets size and checksum of the place counted for it, and nothing else of any file changes |
| ParsedPlacement.ParsedFilled | types.go:888-958 | that holds of every header that parses |
| ParsedPlacement.ParsedPlaceable | reader.go:538-571 | the placement loop fails on no archive that parses |
| ParsedPlacement.ParsedAllPlaced | types.go:946-955 | with as many files with a stream as the counts promise, each promised file has a place |
| ParsedPlacement.FilledSizes | reader.go:548-562 | without files marked empty that have a stream, sizes and checksums are those of the places the loop picks |
| ParsedPlacement.ParsedSizes | reader.go:538-571 | the same, of every header that parses |
| ParsedPlacement.GoodAddsUp | types.go:530-543 | in a well-formed section a folder's sizes add up if and only if those written for it fit |
| ParsedPlacement.ParsedAddsUp | types.go:530-543 | the same of every section that parses |
| ParsedPlacement.WiredRootSize | struct.go:173-185 | a folder that wires up has the size of its last coder as its unpack size |
| ParsedPlacement.ParsedTiled | types.go:523-545 | the files of a parsed folder fill it exactly if and only if the written sizes fit |
| ParsedPlacement.ParsedArchive | reader.go:538-571 | in a parsed archive whose sizes add up each file lies behind the earlier ones of its folder, inside it, and the last ends where it does |
| ArchiveState.WriteKeeps | writer.go:258-268 | a chunk written to an open file keeps every folder's data the concatenation of its files |
| ArchiveState.CloseBothKeeps | writer.go:270-284 | outside solid archives a file and its folder close together |
| ArchiveState.AddFolderKeeps | writer.go:441-517 | a new file with a new folder keeps folders and files in one order |
| ArchiveState.AddSolidKeeps | writer.go:519-521 | a file joining the solid folder comes behind the others |
| ArchiveWriter.Writer.CreateHeader | writer.go:370-534 | the new entry, its folder, what is closed for it, and the invariant of the writer; refused after Close |
| ArchiveWriter.Writer.WriteFile | writer.go:258-268 | the chunk goes to this file and its folder only, before and after the archive is closed; refused after the file was closed |
| ArchiveWriter.Writer.CloseFile | writer.go:270-297 | once; the folder is passed on to the archive or the coordinator; panics if and only if the archive was closed and the open file has a folder |
| ArchiveWriter.Writer.Receive | writer.go:330-350 | the inner loop ends and keeps the output the written folders in order, every other closed folder held or queued once |
| ArchiveWriter.Writer.Close | writer.go:538-567 | the current file, the solid folder and the channel are finished; a second Close changes nothing |
| ArchiveWriter.PendingSent | writer.go:279-283 | a closed folder enters the channel exactly once |
| ArchiveWriter.PendingWritten | writer.go:335-345 | writing the spool whose turn it is extends the output by that folder |
| ArchiveWriter.Written | writer.go:330-350 | for every arrival order: written are the folders before the first open one, held back the closed ones behind it |
| ArchiveWriter.WrittenAll | writer.go:538-567 | nothing is held back after Close if and only if every folder was closed, and then the output is all folders in order |
| ArchiveHeader.BuildHeader | writer.go:569-664 | the metadata loops give counts, sizes and checksums in the order of the folders, and every file its name, times, attributes and marks |
| ArchiveHeader.SizesAddUp | writer.go:641-648 | the sizes listed for a folder's files add up to its unpack size |
| ArchiveHeader.ListedAs | writer.go:629-649 | a file that was left open is listed with size and checksum zero, any other with its own |
| ArchiveHeader.StreamsGood | writer.go:569-664 | the streams section of a finished archive is well formed |
| EndToEnd.HeaderGood | writer.go:569-664 | the header of a finished archive with data can be printed and read back |
| EndToEnd.PlaceOf | struct.go:212-243 | the j-th file with data is found in the folder it was written to, with its size and checksum |
| EndToEnd.OffsetIs | reader.go:548-559 | its offset is the number of bytes written before it to its folder |
| EndToEnd.ContentIs | writer.go:569-664 | at that offset and for that size, the unpacked folder holds what was written to the file |
| EndToEnd.HeaderRead | types.go:888-958 | the printed header of a finished archive parses to the files as they were added, with the sizes and checksums of their places |
| EndToEnd.NormalOffset | reader.go:538-571 | leaving out implied sizes moves no file |
| FolderDecoding.MetaWires | writer.go:590-627 | a folder the writer describes wires up to its compressor over the packed stream, with the cipher between if there is one |
| FolderDecoding.LimitedWhole | struct.go:110 | a limit of its own length leaves a stream alone if and only if an int64 can count it |
| FolderDecoding.MetaRuns | struct.go:86-111 | running that tree over the packed bytes, every coder up to its listed size, undoes the folder's codec |
| FolderDecoding.DecodeFolder | struct.go:260-339 | the packed section of a folder, its wiring and its coders with their limits give back what was compressed |
| EndToEnd.FileFound | reader.go:548-562 | size, checksum, folder and offset that the reader has for a file are those of the bytes written to it |
| EndToEnd.FolderIsFound | struct.go:245-278 | the packed bytes of a folder are where the writer put them |
| EndToEnd.OpenArchive | reader.go:538-571 | printing, parsing and placing give that for every file and every folder, and every file, with data or without, its own name, times, attributes and marks |
| EndToEnd.ReadBack | reader.go:538-571 | for every run and mode with all files closed and fewer than 2^63 bytes, header and archive bytes give back the bytes written to a file and their checksum, through parser, placement, sections, wiring and limits |
| EndToEnd.ZeroStreams | types.go:221-226 | reading refuses a pack section if and only if it has no streams |
| EndToEnd.NoFoldersRefused | writer.go:574-578 | the header that is built and printed for an archive with directories only is refused |
| EndToEnd.ReadableIff | types.go:221-226 | with all files closed, the printed header is read again if and only if some file has data or there is no file |
| EndToEnd.PrintThenParse | writer.go:567-664 | the same of the methods that build, print and parse the header |
| EncryptedFolder.DecipheredEnciphered | internal/aes7z/reader.go:59-90 | deciphering what was enciphered gives the bytes and fewer than sixteen zeros |
| EncryptedFolder.EncryptedEmitted | writer.go:29-41 | at any time the folder has passed on exactly the enciphered full blocks of what the compressor gave |
| EncryptedFolder.EncryptedPacked | writer.go:200-222 | in the end it is the enciphered output of the compressor, padded |
| EncryptedFolder.EncryptedGives | struct.go:86-111 | through cipher and limit the compressor's coder gets exactly what the compressor made, if and only if that is fewer than 2^63 bytes |
| EncryptedFolder.EncryptedLossless | writer.go:460-495 | a compressor that can be inverted loses nothing behind a cipher |
| EncryptedFolder.MadeHolds | writer.go:441-517 | what such a folder holds in the end, the compressed bytes or those enciphered, with the cipher and its size in its description |
| EncryptedFolder.MadeLossless | writer.go:441-517 | so the folders it makes, encrypted or not, meet what the writer asks of them |
| EncryptedFolder.EncipherAll | writer.go:460-517 | chunks through compressor and encryptor give the codec's bytes after every chunk and after closing, and the size that enters the cipher |
| EncryptedFolder.DecipherAll | internal/aes7z/reader.go:59-90 | whole blocks read in any pieces give the deciphered bytes |
| EncryptedFolder.MadeUndone | struct.go:86-111 | a decryptor and a decompressor, each for itself and limited to its listed size, undo such a folder |
| EncryptedFolder.ReadBackMade | reader.go:538-571 | every file of an archive whose folders are made so, encrypted or not, is read back as it was written |
| PooledReading.Extents | reader.go:157-196 | the files of a folder with their offsets and sizes |
| PooledReading.ReadFiles | reader.go:90-196 | any files of a folder, in any order and repeatedly, opened through the pool and read in pieces, give what was written to them |
| ReaderPool.SortedHas | internal/pool/pool.go:75-77 | sorting keeps the keys and puts distinct ones in descending order |
| ReaderPool.Pool.Get | internal/pool/pool.go:67-92 | the entry with the greatest key not above the offset leaves the pool; none if all are above |
| ReaderPool.Pool.Put | internal/pool/pool.go:94-114 | the reader comes first and the oldest one leaves if there is no room; at a taken key nothing happens |
| ReaderPool.Pool.Close | internal/pool/pool.go:148-159 | every reader held is closed, once, the oldest first |
| ReaderPool.Pool.Keys | internal/pool/pool.go:116-126 | the keys of the map, each once |
| FolderFiles.SeekReaches | struct.go:125-156 | every way to seek is one from the start, which succeeds exactly forwards inside the folder, and each failure has its error |
| FolderFiles.FolderFiles.Seek | struct.go:125-156 | the new position or the error of the first check that fails; only forwards |
| FolderFiles.FolderFiles.Open | reader.go:157-196 | a file opens exactly when the folder reaches its offset, never failing by having to go back |
| FolderFiles.FolderFiles.Read | reader.go:90-127 | the bytes are those of the folder from the file's next position, whatever reader is used; a plain end only when the file is complete |
| FolderFiles.FolderFiles.CloseFile | reader.go:129-153 | the reader is closed at the folder's end and pooled otherwise; once |
| FolderFiles.FolderFiles.PoolPut | internal/pool/pool.go:94-114 | a reader that is evicted was not closed before, and none is held and in use |
| FolderFiles.FolderFiles.ClosePool | internal/pool/pool.go:148-159 | every pooled reader is closed, each for the first time |
| FolderFiles.FolderFiles.ReadWhole | reader.go:90-196 | after any history, opening and reading to the end gives the file's bytes |
| Bcj2.DecodeKeeps | internal/bcj2/reader.go:130-167 | a decoded bit keeps the range between 2^24 and 2^32 and probabilities in 31..2017, whatever the stream holds |
| Bcj2.RangeKept | internal/bcj2/reader.go:144-167 | a code inside the range is inside it after a bit; outside, the bit is one and the code is inside afterwards if and only if the refill drops its top byte and the rest is inside |
| Bcj2.BitsKeepRange | internal/bcj2/reader.go:144-167 | over any sequence of bits: inside stays inside, and if the code ends outside every bit was one |
| Bcj2.ComesBack | internal/bcj2/reader.go:130-142 | a state outside the range that is inside it after one bit |
| Bcj2.LoopNotNeeded | internal/bcj2/reader.go:130-142 | refilling in a loop would give the same decoder as the single test |
| Bcj2.ZerosBehind | internal/bcj2/reader.go:130-142 | a zero behind the end of the range stream changes neither what is written nor whether an operand is missing |
| Bcj2.StepTracks | internal/bcj2/reader.go:170-232 | the counter is the number of bytes written and `previous` the last of them, unless an operand is missing |
| Bcj2.OperandTarget | internal/bcj2/reader.go:205-227 | the operand plus the position behind it is the address in the operand stream, modulo 2^32 |
| Bcj2.CompleteStep | internal/bcj2/reader.go:170-232 | streams from which no operand is missing stay so with every branch or byte |
| Bcj2Encoder.SlotIs | internal/bcj2/reader.go:44-60 | what follows what is a branch, and which probability it has |
| Bcj2Encoder.SharedIff | internal/bcj2/reader.go:52-60 | two branches share a probability if and only if they are calls behind the same byte, jumps, or neither |
| Bcj2Encoder.BitDecodes | internal/bcj2/reader.go:130-167 | the place that an encoder takes in the range for a bit decodes to that bit and to the place after it |
| Bcj2Encoder.MergeEncoded | internal/bcj2/reader.go:170-232 | bytes split into main, call, jump and range streams come back, for all bytes and every choice of branches to move, with the code inside its range |
| Bcj2Encoder.EncodeThenRead | internal/bcj2/reader.go:64-128 | a reader over such streams gives a prefix of the bytes for every sequence of read sizes, and all of them after enough reads |
| Bcj2.ReadCloser.constructor | internal/bcj2/reader.go:64-97 | the range starts wide for all first five bytes, the code inside it exactly for some |
| Bcj2.ReadCloser.Decode | internal/bcj2/reader.go:144-167 | one bit with its adapted probability, the range kept wide and a code inside it kept inside |
| Bcj2.ReadCloser.Fill | internal/bcj2/reader.go:170-232 | wherever the loop stops, given, buffered and still-to-come bytes together stay the same, a code inside the range stays inside, and complete streams stay complete |
| Bcj2.ReadCloser.Read | internal/bcj2/reader.go:113-128 | for every sequence of sizes the bytes come in one order, none without an error only if none were asked for, and a code inside the range stays inside |
| DeltaFilter.UndoAt | internal/delta/reader.go:55-62 | as numbers modulo 256, each output is its input plus the output delta places back |
| DeltaFilter.UndoFresh | internal/delta/reader.go:76-89 | the same from a fresh start, where the first outputs are the inputs |
| DeltaFilter.UndoSplits | internal/delta/reader.go:40-73 | the input may be cut anywhere, the last outputs being carried over |
| DeltaFilter.ReadCloser.Decode | internal/delta/reader.go:49-70 | the ring turns the buffer into the outputs in place, and the state into the last delta outputs, oldest first |
| DeltaFilter.ReadCloser.Read | internal/delta/reader.go:40-73 | bytes, count, error and state for every way the source ends; never the end, and no bytes without an error exactly when the source gave none |
| DeltaFilter.ReadCloser.Close | internal/delta/reader.go:26-38 | a second Close reports it |
| DeltaFilter.DecodePieces | internal/delta/reader.go:40-73 | for every way a stream is cut, the outputs are those of the whole and the state its last delta outputs |
| CbcStreams.UnsealSealed | internal/aes7z/reader.go:59-90 | unchaining a chained sequence of blocks gives it back |
| CbcStreams.SealAt | writer.go:29-41 | each block is mixed, bit by bit, with the encrypted one before it, or the initial vector, and encrypted |
| CbcStreams.UnsealAt | internal/aes7z/reader.go:59-90 | and decrypted it is mixed with that one again |
| CbcStreams.BlocksHold | writer.go:43-55 | the blocks of n bytes are 16 times n/16 rounded up bytes: the n bytes and zeros |
| CbcStreams.AesWriter.Write | writer.go:29-41 | however the writes are cut, full blocks are chained as they fill |
| CbcStreams.AesWriter.Close | writer.go:43-55 | the output is the chained encryption of the zero-padded input, and the buffer is left with the encrypted last block |
| CbcStreams.CloseTwice | writer.go:43-55 | a second Close writes one more block, the encryption of zeros, if and only if the first had to fill one |
| CbcStreams.AesReader.Read | internal/aes7z/reader.go:59-90 | however the reads are cut, they give the plain bytes in order, as many as asked for; an unfinished block is an error |
| CbcStreams.SealThenOpen | writer.go:29-55 | what is written in any pieces is read back in any pieces, then the padding |
| PathNames.ValidNameNice | reader.go:689-699 | a cleaned name is empty, `.`, `..`, or components none of which is empty or made of dots |
| ValidNames.NormIs | reader.go:690-692 | what is left of the components once every dot-dot has taken back the one before it, read from the end |
| ValidNames.ToValidNameIs | reader.go:689-699 | a listed name is those components, or nothing, a dot or two dots when there are none |
| ValidNames.ValidKept | reader.go:689-699 | a valid name is listed as it is if and only if it has no backslash, and no listed name has one |
| PathNames.SplitLoop | reader.go:774-789 | the loop from the end finds directory and element |
| NameIndex.BeforeIff | reader.go:767-772 | one string is before another if and only if it is smaller at the first place where they differ, or ends there |
| NameIndex.LessTotal | reader.go:767-789 | no two valid names split alike, so any two different ones are ordered |
| PathNames.DirNice | reader.go:727-729 | the directory of a valid name is valid and shorter, until it is `.` |
| PathNames.AboveIff | reader.go:727-729 | a directory is above a valid name if and only if it is the name up to one of its slashes |
| NameIndex.KeyOrder | reader.go:767-772 | directory and element order names totally and strictly |
| NameIndex.Reader.AddDirs | reader.go:727-729 | the loop ends and adds exactly the directories above a name |
| NameIndex.Reader.CollectFile | reader.go:709-744 | one item for each name, the first file with it, marked when another file repeats it |
| NameIndex.DirectoryIff | reader.go:710 | a file is listed as a directory if and only if its name ends in a slash |
| NameIndex.Reader.AddMissing | reader.go:746-761 | directories nobody listed get an item, files that are also directories a mark |
| NameIndex.Reader.InitFileList | reader.go:702-765 | the list is strictly sorted and holds exactly the files' names and the directories above them, marked if and only if ambiguous |
| NameIndex.AncestorsListed | reader.go:746-761 | every directory above a listed name is listed |
| NameIndex.OpenLookup | reader.go:794-816 | an item is found exactly when one has that name |
| NameIndex.OpenReadDir | reader.go:818-834 | exactly the items whose directory it is, in order |

## Left out

- Compression libraries (LZMA, LZMA2, PPMd, Deflate, Bzip2, LZ4, Brotli, Zstandard): thin wrappers; a compressor is a streaming function with an inverse.
- The AES block transform, key derivation and random salts: any permutation of blocks.
- CRC32 arithmetic, and the comparison of checksums after reading.
- The encoded header (`writer.go:666-879`, `types.go:960-975`), the start header and the signature search: the header's bytes are taken as stored.
- Read and write errors of the underlying file; the branch-filter, delta, cipher and header readers get every byte of their source or its end. The coordinator's latched copy error is one of them.
- Short reads inside header parsing: the source fills each request while it has bytes.
- Concurrency below the level of one call: the writer, its coordinator and the pool take turns in any order, each turn a whole call. Blocking on a full channel is not modelled.
- Conversion between UTF-16 and UTF-8: names in the header are sequences of 16-bit units without a zero; the scanner's limit on the length of one name is not modelled.
- Conversion between file times and `time.Time`: times are optional 64-bit values, and the zero time is absent.
- File mode bits: whether an entry is a directory is an input of `CreateHeader`. The slash that `init` adds to directory names is part of the names given to `NameIndex.Reader`.
- Offsets are unbounded integers: in parsed archives, folders of 2^63 bytes or more, whose offsets would become negative, are not covered.
- EndToEnd.ReadBack: asks for fewer than 2^63 packed bytes, beyond which the limits give nothing, and for at most 2^32 - 1 files.
- EncryptedFolder.ReadBackMade: asks for fewer than 2^63 bytes of data in every folder, for the same reason.
- `plumbing.LimitReadCloser` is not part of this repository; it is taken to give at most so many bytes, and none for a limit that is not positive.
- `or` and shifts of disjoint bits in header numbers are written as sums and products.
- BraReader.ReadCloser.Read: buffers of 2^32 bytes or more are not covered, because the positions of the x86 filter are 32 bits wide; streams for the ARM filter are shorter than 2^32 - 4 bytes.
- DeltaFilter.ReadCloser.Read: covers distances 1 to 255; the property byte 255 wraps to the distance 0, with which the loop of the source does not end.
- FolderGraph.FolderReader: needs packed and bound indices in range, which `readFolder` does not check; out of range the source panics.
- Placement.FolderOffset: needs a size for every packed stream before the folder, where the source indexes out of range.
- Bcj2.ReadCloser.Fill: the capacity at which the loop pauses is an input of each call instead of the growth of `bytes.Buffer`; the code is a 64-bit uint.
- FolderFiles.FolderFiles.Read: the folder's decoder is a byte sequence no longer than the folder's size; decoder errors other than an early end are not modelled.
- NameIndex.Reader.InitFileList: characters stand for the bytes that Go compares; UTF-8 keeps their order.
- `openDir` paging, `fs.FileInfo` values, volumes and multi-part files.
- Attributes of encryption hints in errors, and error wrapping.

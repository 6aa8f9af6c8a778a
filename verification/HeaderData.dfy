/** The archive header as data, and the outcome of reading a part of it. */
module HeaderData {
  import opened Basics

  type byte = x: int | 0 <= x < 0x100
  type u16 = x: int | 0 <= x < 0x1_0000
  type u64 = x: int | 0 <= x < 0x1_0000_0000_0000_0000

  const MAX_UINT32: int := 0xffff_ffff

  // Sizes are uint64 in the header; what is read by them is counted in an int64.
  const TWO63: int := 0x8000_0000_0000_0000

  const ID_END: byte := 0x00
  const ID_ARCHIVE_PROPERTIES: byte := 0x02
  const ID_ADDITIONAL_STREAMS_INFO: byte := 0x03
  const ID_MAIN_STREAMS_INFO: byte := 0x04
  const ID_FILES_INFO: byte := 0x05
  const ID_PACK_INFO: byte := 0x06
  const ID_UNPACK_INFO: byte := 0x07
  const ID_SUB_STREAMS_INFO: byte := 0x08
  const ID_SIZE: byte := 0x09
  const ID_CRC: byte := 0x0a
  const ID_FOLDER: byte := 0x0b
  const ID_CODERS_UNPACK_SIZE: byte := 0x0c
  const ID_NUM_UNPACK_STREAM: byte := 0x0d
  const ID_EMPTY_STREAM: byte := 0x0e
  const ID_EMPTY_FILE: byte := 0x0f
  const ID_CTIME: byte := 0x12
  const ID_ATIME: byte := 0x13
  const ID_MTIME: byte := 0x14
  const ID_NAME: byte := 0x11
  const ID_WIN_ATTRIBUTES: byte := 0x15
  const ID_START_POS: byte := 0x18
  const ID_DUMMY: byte := 0x19

  datatype PackInfo = PackInfo(position: u64, streams: u64, size: seq<u64>, digest: seq<u32>)

  datatype Coder = Coder(id: seq<byte>, ins: nat, outs: nat, properties: seq<byte>)

  datatype BindPair = BindPair(ins: nat, outs: nat)

  datatype Folder = Folder(ins: nat, outs: nat, packedStreams: nat, coder: seq<Coder>,
                           bindPair: seq<BindPair>, size: seq<u64>, packed: seq<u64>)

  datatype UnpackInfo = UnpackInfo(folder: seq<Folder>, digest: seq<u32>)

  datatype SubStreamsInfo = SubStreamsInfo(streams: seq<u64>, size: seq<u64>, digest: seq<u32>)

  datatype StreamsInfo = StreamsInfo(packInfo: Option<PackInfo>, unpackInfo: Option<UnpackInfo>,
                                     subStreamsInfo: Option<SubStreamsInfo>)

  // Times are FILETIME values; None is the zero time.
  datatype FileHeader = FileHeader(name: seq<u16>, created: Option<u64>, accessed: Option<u64>,
                                   modified: Option<u64>, attributes: u32, crc: u32, size: u64,
                                   isEmptyStream: bool, isEmptyFile: bool)

  const BLANK := FileHeader([], None, None, None, 0, 0, 0, false, false)

  // The same file, as far as its own header says: all but the size and the checksum of its data.
  predicate SameFile(f: FileHeader, g: FileHeader) {
    && f.name == g.name && f.created == g.created && f.accessed == g.accessed && f.modified == g.modified
    && f.attributes == g.attributes && f.isEmptyStream == g.isEmptyStream && f.isEmptyFile == g.isEmptyFile
  }

  datatype Header = Header(streamsInfo: Option<StreamsInfo>, filesInfo: Option<seq<FileHeader>>)

  // Panic is an index out of range in the reader; Todo a part of the format it refuses.
  datatype Error =
    | EOF
    | IncompleteRead
    | UnexpectedId
    | MissingUnpackInfo
    | WrongNumberOfFilenames
    | Zero
    | TooLarge
    | InvalidBindPair
    | Todo
    | Panic

  // What reading from a byte sequence gives: a value and the bytes after it, or an error.
  datatype Parse<+T> = Ok(value: T, rest: seq<byte>) | Err(error: Error)
  {
    predicate IsFailure() { Err? }

    function PropagateFailure<U>(): Parse<U>
      requires Err?
    {
      Err(error)
    }

    function Extract(): (T, seq<byte>)
      requires Ok?
    {
      (value, rest)
    }
  }

  // What a method that reads from a source returns.
  datatype Result<+T> = Success(value: T) | Failure(error: Error)
  {
    predicate IsFailure() { Failure? }

    function PropagateFailure<U>(): Result<U>
      requires Failure?
    {
      Failure(error)
    }

    function Extract(): T
      requires Success?
    {
      value
    }
  }
}

/** The data file: a header that names the format, its version and the number of
    bytes that follow. Files are sequences of bytes here, a missing one is empty. */
module DataFile {
  import opened Bytes
  import opened Directory

  const FILE_HEADER_SIZE := 16

  const MAGIC: seq<Byte> := [0x46, 0x5A, 0x44, 0x42]

  const VERSION := 1

  const CHUNK_BUFFER_SIZE := 0x10_0000

  function FileHeader(size: nat): (bs: seq<Byte>)
    ensures |bs| == FILE_HEADER_SIZE
  {
    MAGIC + (LE(VERSION, 2) + (Zeros(2) + LE(size, 8)))
  }

  function FileBytes(data: seq<Byte>): seq<Byte> { FileHeader(|data|) + data }

  /** The size field of whatever the file begins with, over a zeroed header. */
  function DataLength(file: seq<Byte>): nat { FromLE((file + Zeros(FILE_HEADER_SIZE))[8..16]) }

  /** FileSystem::readFile into a buffer of the given length. */
  function ReadFile(file: seq<Byte>, length: nat): Result<seq<Byte>> {
    var _ :- Need(|file| > FILE_HEADER_SIZE);
    var version :- Num(file, 4, 2);
    var _ :- Need(file[..4] == MAGIC && version == VERSION);
    var size :- Num(file, 8, 8);
    var _ :- Need(|file| - FILE_HEADER_SIZE == size);
    var _ :- Need(length >= size);
    Ok(file[FILE_HEADER_SIZE..])
  }

  lemma FileFieldsRead(data: seq<Byte>)
    requires |data| < WORD_LIMIT
    ensures var file := FileBytes(data);
      && file[..4] == MAGIC && Num(file, 4, 2) == Ok(VERSION) && Num(file, 8, 8) == Ok(|data|) && DataLength(file) == |data|
  {
    hide Num, LE, FromLE, Pow256, Zeros;
    Widths();
    var last := LE(|data|, 8) + data;
    var file := FileBytes(data);
    assert file == MAGIC + (LE(VERSION, 2) + (Zeros(2) + last));
    NumHere(VERSION, 2, Zeros(2) + last);
    NumAfter(MAGIC, LE(VERSION, 2) + (Zeros(2) + last), 0, 2);
    var front := MAGIC + (LE(VERSION, 2) + Zeros(2));
    assert file == front + last;
    NumHere(|data|, 8, data);
    NumAfter(front, last, 0, 8);
    assert (file + Zeros(FILE_HEADER_SIZE))[8..16] == LE(|data|, 8);
    NumberReadsBack(|data|, 8);
  }

  /** What was written is read back, unless it was nothing at all. */
  lemma FileReadsBack(data: seq<Byte>)
    requires |data| < WORD_LIMIT
    ensures DataLength(FileBytes(data)) == |data|
    ensures ReadFile(FileBytes(data), |data|) == if data == [] then Err(Rejected) else Ok(data)
  {
    hide Num, FromLE;
    FileFieldsRead(data);
    assert FileBytes(data)[FILE_HEADER_SIZE..] == data;
  }

  /** A file that is cut short or added to is never taken for a whole one. */
  lemma WrongSizeIsRejected(data: seq<Byte>, file: seq<Byte>, length: nat)
    requires |data| < WORD_LIMIT && |file| >= FILE_HEADER_SIZE && |file| != |FileBytes(data)|
    requires file[..FILE_HEADER_SIZE] == FileHeader(|data|)
    ensures ReadFile(file, length) == Err(Rejected)
  {
    hide FromLE, LE;
    FileFieldsRead(data);
    assert file[8..16] == FileBytes(data)[8..16] && file[4..6] == FileBytes(data)[4..6] by {
      assert file[8..16] == file[..16][8..16] && file[4..6] == file[..16][4..6];
      assert FileBytes(data)[..16] == FileHeader(|data|);
      assert FileBytes(data)[8..16] == FileBytes(data)[..16][8..16] && FileBytes(data)[4..6] == FileBytes(data)[..16][4..6];
    }
  }

  /** FileSystem::writeFile: the header, then the data in chunks through a buffer. */
  method WriteFile(data: seq<Byte>) returns (file: seq<Byte>)
    ensures file == FileBytes(data)
  {
    file := FileHeader(|data|);
    var i := 0;
    while i < |data|
      invariant file == FileHeader(|data|) + data[..if i < |data| then i else |data|]
      decreases |data| - i
    {
      var bytesThisIteration := if CHUNK_BUFFER_SIZE < |data| - i then CHUNK_BUFFER_SIZE else |data| - i;
      var tempBuffer := data[i..i + bytesThisIteration];
      file := file + tempBuffer;
      assert data[..i + bytesThisIteration] == data[..i] + tempBuffer;
      i := i + CHUNK_BUFFER_SIZE;
    }
  }
}

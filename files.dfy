/**
 * The file objects the modelled code reads and writes. A BinaryFile is an open
 * binary file: fixed contents, a cursor that read and seek move, and a closed
 * flag. A FileSystem maps path strings to file contents for the code that
 * writes packages and extracted resources.
 */
module Files {
  import opened Bytes

  /** What file.read(n) returns with the cursor at pos: n bytes, fewer at end of file. */
  function ReadAt(data: seq<byte>, pos: nat, n: nat): (r: seq<byte>)
    ensures |r| <= n
    ensures pos + n <= |data| ==> r == data[pos..pos + n]
    ensures pos + n > |data| ==> r == if pos < |data| then data[pos..] else []
  {
    if pos >= |data| then [] else if pos + n <= |data| then data[pos..pos + n] else data[pos..]
  }

  class BinaryFile {
    const data: seq<byte>
    var pos: nat
    var closed: bool

    /** open(path, "rb") on a file with the given contents. */
    constructor (contents: seq<byte>)
      ensures data == contents && pos == 0 && !closed
    {
      data := contents;
      pos := 0;
      closed := false;
    }

    method Read(n: nat) returns (chunk: seq<byte>)
      requires !closed
      modifies this`pos
      ensures chunk == ReadAt(data, old(pos), n)
      ensures pos == old(pos) + |chunk|
    {
      chunk := ReadAt(data, pos, n);
      pos := pos + |chunk|;
    }

    method Seek(p: nat)
      requires !closed
      modifies this`pos
      ensures pos == p
    {
      pos := p;
    }

    method Close()
      modifies this`closed
      ensures closed
    {
      closed := true;
    }
  }

  class FileSystem {
    var files: map<string, seq<byte>>

    constructor (initial: map<string, seq<byte>>)
      ensures files == initial
    {
      files := initial;
    }

    /** open(path, "wb").write(contents). */
    method WriteFile(path: string, contents: seq<byte>)
      modifies this
      ensures files == old(files)[path := contents]
    {
      files := files[path := contents];
    }

    /** shutil.copy2(src, dst). */
    method Copy(src: string, dst: string)
      requires src in files
      modifies this
      ensures files == old(files)[dst := old(files)[src]]
    {
      files := files[dst := files[src]];
    }
  }
}

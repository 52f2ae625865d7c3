/** Seekable byte files: files on disk and in-memory buffers. */
module ByteFiles {
  import opened Common

  /** The bytes that `seek(pos); read(n)` yields: fewer than `n` at the end of the file. */
  function Slice(file: seq<byte>, pos: nat, n: nat): (s: seq<byte>)
    ensures |s| <= n
  {
    file[Min(pos, |file|)..Min(pos + n, |file|)]
  }

  /** A seekable file; `readCount` counts the read calls. */
  class BinaryFile {
    var content: seq<byte>
    var pos: nat
    ghost var readCount: nat

    constructor (content: seq<byte>)
      ensures this.content == content && pos == 0 && readCount == 0
    {
      this.content, pos, readCount := content, 0, 0;
    }

    method Seek(p: nat)
      modifies this`pos
      ensures pos == p
    {
      pos := p;
    }

    method Read(n: nat) returns (data: seq<byte>)
      modifies this`pos, this`readCount
      ensures data == Slice(content, old(pos), n)
      ensures pos == old(pos) + |data|
      ensures readCount == old(readCount) + 1
    {
      data := Slice(content, pos, n);
      pos := pos + |data|;
      readCount := readCount + 1;
    }

    method SeekEnd()
      modifies this`pos
      ensures pos == |content|
    {
      pos := |content|;
    }

    /** `read()` without a size: the rest of the file. */
    method ReadRest() returns (data: seq<byte>)
      requires pos <= |content|
      modifies this`pos, this`readCount
      ensures data == content[old(pos)..] && pos == |content|
    {
      data := Read(|content| - pos);
    }

    /** Overwrites at the current position; a gap after the old end is filled with zero bytes. */
    method Write(data: seq<byte>)
      modifies this`pos, this`content
      ensures content == Overwrite(old(content), old(pos), data)
      ensures pos == old(pos) + |data|
      ensures old(pos) == |old(content)| ==> content == old(content) + data
    {
      content := Overwrite(content, pos, data);
      pos := pos + |data|;
    }
  }

  function Zeros(n: nat): (z: seq<byte>)
    ensures |z| == n && forall i :: 0 <= i < n ==> z[i] == 0
  {
    seq(n, _ => 0)
  }

  function Overwrite(file: seq<byte>, pos: nat, data: seq<byte>): (r: seq<byte>)
    ensures data != [] ==> |r| == Max(|file|, pos + |data|)
    ensures data != [] ==> forall k :: 0 <= k < |data| ==> r[pos + k] == data[k]
    ensures forall k :: 0 <= k < |file| && !(pos <= k < pos + |data|) ==> k < |r| && r[k] == file[k]
  {
    if data == [] then file
    else
      var head := if pos <= |file| then file[..pos] else file + Zeros(pos - |file|);
      var tail := if pos + |data| <= |file| then file[pos + |data|..] else [];
      head + data + tail
  }
}

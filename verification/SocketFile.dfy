/** The buffered file object attached to a socket: reading and writing through _fileobject. */
module SocketFile {
  import opened Common
  import opened ByteFiles
  import opened Lines

  const DEFAULT_BUFSIZE := 8192

  /** The peer: `incoming` is what recv has yet to deliver, `acked` what successful sendall calls were given;
      `arrivals` says how many bytes have arrived when the next calls of recv are made. */
  class Socket {
    var incoming: seq<byte>
    var arrivals: seq<nat>
    var acked: seq<byte>

    /** How much the next recv finds: recv waits for one byte at least, and finds all when the schedule has ended. */
    function Waiting(): (n: nat)
      reads this
      ensures n <= |incoming| && (n == 0 <==> incoming == [])
    {
      if incoming == [] then 0
      else if arrivals == [] then |incoming|
      else Min(Max(arrivals[0], 1), |incoming|)
    }

    /** recv: what has arrived, up to `n` bytes; empty only at the end. */
    method Recv(n: nat) returns (data: seq<byte>)
      requires n > 0
      modifies this`incoming, this`arrivals
      ensures data + incoming == old(incoming)
      ensures |data| == Min(n, old(Waiting()))
      ensures |data| <= n && (data == [] <==> old(incoming) == [])
    {
      var k := Min(n, Waiting());
      data, incoming := incoming[..k], incoming[k..];
      if arrivals != [] {
        arrivals := arrivals[1..];
      }
    }

    /** sendall: fails at will, and then the chunk does not count as written. */
    method SendAll(chunk: seq<byte>) returns (ok: bool)
      modifies this`acked
      ensures acked == old(acked) + if ok then chunk else []
    {
      ok := *;
      if ok {
        acked := acked + chunk;
      }
    }
  }

  class FileObject {
    const sock: Socket
    const rbufsize: nat
    const wbufsize: nat
    var rbuf: BinaryFile
    var wbuf: seq<seq<byte>>
    var wbufLen: int

    constructor (sock: Socket, bufsize: int)
      ensures Valid() && this.sock == sock && fresh(rbuf)
      ensures Unread() == sock.incoming && Unsent() == []
      ensures wbufsize == if bufsize < 0 then DEFAULT_BUFSIZE else bufsize
      ensures rbufsize == if wbufsize == 0 then 1 else if wbufsize == 1 then DEFAULT_BUFSIZE else wbufsize
    {
      this.sock := sock;
      var size := if bufsize < 0 then DEFAULT_BUFSIZE else bufsize;
      rbufsize := if size == 0 then 1 else if size == 1 then DEFAULT_BUFSIZE else size;
      wbufsize := size;
      rbuf := new BinaryFile([]);
      wbuf, wbufLen := [], 0;
    }

    ghost predicate Valid()
      reads this
    {
      && rbufsize > 0
      && wbufLen == |Join(wbuf)|
      && forall i :: 0 <= i < |wbuf| ==> wbuf[i] != []
    }

    /** Everything a caller has not been given yet: the buffer, then what the socket will deliver. */
    function Unread(): seq<byte>
      reads this, rbuf, sock
    {
      rbuf.content + sock.incoming
    }

    /** Everything written that no sendall has taken yet. */
    function Unsent(): seq<byte>
      reads this
    {
      Join(wbuf)
    }

    /** `self._rbuf = BytesIO(); self._rbuf.write(rest)`. */
    method ResetRbuf(rest: seq<byte>)
      modifies this`rbuf
      ensures fresh(rbuf) && rbuf.content == rest && rbuf.pos == |rest|
    {
      rbuf := new BinaryFile([]);
      rbuf.Write(rest);
    }

    /** read: with a size, exactly that many bytes or all that remain; without one, the buffer and a single recv. */
    method Read(size: int) returns (r: seq<byte>)
      requires Valid()
      modifies this`rbuf, rbuf, sock`incoming, sock`arrivals
      ensures Valid() && (rbuf == old(rbuf) || fresh(rbuf))
      ensures r + Unread() == old(Unread())
      ensures size >= 0 ==> |r| == Min(size, |old(Unread())|)
      ensures size < 0 ==> rbuf.content == [] && old(rbuf.content) <= r
      ensures size < 0 ==> |r| <= |old(rbuf.content)| + Max(rbufsize, DEFAULT_BUFSIZE)
      ensures size < 0 ==> (|r| == |old(rbuf.content)| <==> old(sock.incoming) == [])
      ensures size < 0 ==> (r == old(Unread()) <==> sock.incoming == [])
      ensures size < 0 ==>
                (r == old(Unread()) <==> old(sock.Waiting()) == |old(sock.incoming)| <= Max(rbufsize, DEFAULT_BUFSIZE))
    {
      var buf := rbuf;
      buf.SeekEnd();
      if size < 0 {
        ResetRbuf([]);
        var data := sock.Recv(Max(rbufsize, DEFAULT_BUFSIZE));
        buf.Write(data);
        return buf.content;
      }
      if buf.pos >= size {
        r := TakeBuffered(size);
      } else {
        ResetRbuf([]);
        r := ReadUpTo(buf, size);
      }
    }

    /** Serves a read from the buffer alone. */
    method TakeBuffered(size: nat) returns (r: seq<byte>)
      requires Valid() && size <= |rbuf.content|
      modifies this`rbuf, rbuf
      ensures Valid() && fresh(rbuf)
      ensures r == old(rbuf.content)[..size] && rbuf.content == old(rbuf.content)[size..]
    {
      var buf := rbuf;
      buf.Seek(0);
      r := buf.Read(size);
      var rest := buf.ReadRest();
      ResetRbuf(rest);
    }

    /** Collects from the socket, behind what `buf` already holds, until there are `size` bytes or no more. */
    method ReadUpTo(buf: BinaryFile, size: nat) returns (r: seq<byte>)
      requires buf != rbuf && buf.pos == |buf.content| < size
      modifies buf, sock`incoming, sock`arrivals
      ensures r + sock.incoming == old(buf.content) + old(sock.incoming)
      ensures |r| == Min(size, |old(buf.content)| + |old(sock.incoming)|)
    {
      var bufLen := buf.pos;
      ghost var whole := buf.content + sock.incoming;
      while true
        invariant buf.content + sock.incoming == whole
        invariant |buf.content| == buf.pos == bufLen < size
        decreases |sock.incoming|
      {
        var left := size - bufLen;
        var data := sock.Recv(left);
        assert buf.content + data + sock.incoming == whole;
        if data == [] {
          break;
        }
        var n := |data|;
        if n == size && bufLen == 0 {
          return data;
        }
        if n == left {
          buf.Write(data);
          break;
        }
        assert n <= left;
        buf.Write(data);
        bufLen := bufLen + n;
      }
      return buf.content;
    }

    /** `buf.readline(size)` on the in-memory buffer. */
    static method BufferLine(buf: BinaryFile, size: int) returns (line: seq<byte>)
      requires buf.pos == 0
      modifies buf`pos
      ensures line == LineOf(buf.content, size) && buf.pos == |line|
    {
      line := LineOf(buf.content, size);
      buf.Seek(|line|);
    }

    /** readline: whatever the socket's chunking and the buffer size, the line an ideal reader would return. */
    method ReadLine(size: int) returns (r: seq<byte>)
      requires Valid()
      modifies this`rbuf, rbuf, sock`incoming, sock`arrivals
      ensures Valid() && (rbuf == old(rbuf) || fresh(rbuf))
      ensures r == LineOf(old(Unread()), size)
      ensures r + Unread() == old(Unread())
    {
      hide LineOf, EndsLine, Begins;
      var buf := rbuf;
      buf.SeekEnd();
      if buf.pos > 0 {
        buf.Seek(0);
        var bline := BufferLine(buf, size);
        if EndsLine(bline) || |bline| == size {
          var rest := buf.ReadRest();
          ResetRbuf(rest);
          LineStop(buf.content, sock.incoming, size);
          return bline;
        }
        StillBegins(buf.content, size);
      }
      r := ReadOn(buf, size);
    }

    lemma StillBegins(b: seq<byte>, n: int)
      requires !EndsLine(LineOf(b, n)) && |LineOf(b, n)| != n
      ensures Begins(b, n)
    {
      hide LineOf, EndsLine;
      LineOfIsLine(b, n);
    }

    /** readline, as far as the socket is needed. */
    method ReadOn(buf: BinaryFile, size: int) returns (r: seq<byte>)
      requires Valid() && buf == rbuf && (buf.content == [] || Begins(buf.content, size))
      modifies this`rbuf, rbuf, sock`incoming, sock`arrivals
      ensures Valid() && (rbuf == old(rbuf) || fresh(rbuf))
      ensures r == LineOf(old(Unread()), size)
      ensures r + Unread() == old(Unread())
    {
      if size < 0 {
        Unbounded(buf.content, size);
        Unbounded(buf.content + sock.incoming, size);
        if rbufsize <= 1 {
          r := LineByBytes(buf);
        } else {
          r := LineByChunks(buf);
        }
      } else {
        buf.SeekEnd();
        if buf.pos >= size {
          assert size == 0 && buf.content == [];
          r := TakeBuffered(size);
          return;
        }
        r := BoundedLine(buf, size);
      }
    }

    /** No complete line yet: the whole of `b` begins the line. */
    ghost predicate Begins(b: seq<byte>, n: int) {
      LineOf(b, n) == b && !EndsLine(b) && (n < 0 || |b| < n)
    }

    /** The unbuffered case: one byte at a time, until a newline has arrived. */
    method LineByBytes(buf: BinaryFile) returns (r: seq<byte>)
      requires Valid() && buf == rbuf && Begins(buf.content, -1)
      modifies this`rbuf, buf, sock`incoming, sock`arrivals
      ensures Valid() && fresh(rbuf)
      ensures r == LineOf(old(Unread()), -1)
      ensures r + Unread() == old(Unread())
    {
      hide LineOf, Begins, Overwrite, Slice;
      ghost var whole := Unread();
      buf.Seek(0);
      var first := buf.ReadRest();
      ResetRbuf([]);
      var buffers := first;
      var data: Option<seq<byte>> := None;
      while data != Some([NEWLINE])
        invariant buffers + sock.incoming == whole
        invariant fresh(rbuf) && rbuf.content == []
        invariant data == Some([NEWLINE]) ==> LineOf(whole, -1) == buffers
        invariant data != Some([NEWLINE]) ==> Begins(buffers, -1)
        decreases |sock.incoming|, data != Some([NEWLINE])
      {
        var next := sock.Recv(1);
        if next == [] {
          WholeLine(buffers, -1);
          return buffers;
        }
        ExtendLine(buffers, next, sock.incoming, -1);
        assert buffers + next + sock.incoming == whole;
        assert next[0] == NEWLINE ==> next == [NEWLINE];
        data := Some(next);
        buffers := buffers + next;
      }
      return buffers;
    }

    /** Adding bytes up to and including the first newline completes the line; adding others continues it. */
    lemma ExtendLine(b: seq<byte>, d: seq<byte>, rest: seq<byte>, n: int)
      requires Begins(b, n)
      requires n < 0 || |b| + |d| <= n
      requires forall i :: 0 <= i < |d| - 1 ==> d[i] != NEWLINE
      ensures LineOf(b + d, n) == b + d
      ensures EndsLine(d) ==> LineOf(b + d + rest, n) == b + d
      ensures !EndsLine(d) && (n < 0 || |b| + |d| < n) ==> Begins(b + d, n)
      ensures |b| + |d| == n ==> LineOf(b + d + rest, n) == b + d
    {
      LineSkip(b, d, n);
      LineOfIsLine(d, n - |b|);
      LineUnique(d, n - |b|, LineOf(d, n - |b|), d);
      if EndsLine(d) || |b| + |d| == n {
        assert EndsLine(d) ==> (b + d)[|b + d| - 1] == NEWLINE;
        LineStop(b + d, rest, n);
      }
    }

    lemma WholeLine(b: seq<byte>, n: int)
      requires Begins(b, n)
      ensures LineOf(b, n) == b
      ensures b + [] == b
    {
    }

    /** The buffered case without a size: chunks of any length, the surplus goes back into the buffer. */
    method LineByChunks(buf: BinaryFile) returns (r: seq<byte>)
      requires Valid() && buf == rbuf && Begins(buf.content, -1)
      modifies this`rbuf, buf, sock`incoming, sock`arrivals
      ensures Valid() && fresh(rbuf)
      ensures r == LineOf(old(Unread()), -1)
      ensures r + Unread() == old(Unread())
    {
      hide LineOf, Begins, FindNewline, Overwrite, Slice;
      ghost var whole := Unread();
      buf.SeekEnd();
      ResetRbuf([]);
      while true
        invariant buf.content + sock.incoming == whole
        invariant buf.pos == |buf.content| && Begins(buf.content, -1)
        invariant fresh(rbuf) && rbuf.content == [] && rbuf.pos == 0
        decreases |sock.incoming|
      {
        var data := sock.Recv(rbufsize);
        if data == [] {
          WholeLine(buf.content, -1);
          return buf.content;
        }
        var nl := FindNewline(data, |data|);
        if nl >= 0 {
          nl := nl + 1;
          r := FinishLine(buf, data, nl, -1, whole);
          return;
        }
        ContinueLine(buf.content, data, sock.incoming, -1, whole);
        buf.Write(data);
      }
    }

    /** The first `k` bytes of the chunk complete the line; the others come after it. */
    ghost predicate Completes(b: seq<byte>, data: seq<byte>, k: nat, rest: seq<byte>, n: int, whole: seq<byte>) {
      && Begins(b, n) && 0 < k <= |data| && (n < 0 || |b| + k <= n)
      && (forall i :: 0 <= i < k - 1 ==> data[i] != NEWLINE)
      && (data[k - 1] == NEWLINE || |b| + k == n)
      && b + (data + rest) == whole
    }

    lemma CompleteLine(b: seq<byte>, data: seq<byte>, k: nat, rest: seq<byte>, n: int, whole: seq<byte>)
      requires Completes(b, data, k, rest, n, whole)
      ensures LineOf(whole, n) == b + data[..k]
      ensures (b + data[..k]) + (data[k..] + rest) == whole
      ensures b == [] ==> b + data[..k] == data[..k]
    {
      hide LineOf, Begins;
      CutChunk(b, data, k, rest);
      ExtendLine(b, data[..k], data[k..] + rest, n);
    }

    lemma CutChunk(b: seq<byte>, data: seq<byte>, k: nat, rest: seq<byte>)
      requires k <= |data|
      ensures b + (data + rest) == (b + data[..k]) + (data[k..] + rest)
      ensures b == [] ==> b + data[..k] == data[..k]
    {
      assert data == data[..k] + data[k..];
    }

    /** Ends a line inside a received chunk: the surplus goes to the fresh read buffer.
        (Where the source always copies through `buf`, an empty `buf` makes no difference.) */
    method FinishLine(buf: BinaryFile, data: seq<byte>, k: nat, n: int, ghost whole: seq<byte>) returns (r: seq<byte>)
      requires Valid() && buf != rbuf && buf.pos == |buf.content| && rbuf.content == [] && rbuf.pos == 0
      requires Completes(buf.content, data, k, sock.incoming, n, whole)
      modifies rbuf, buf
      ensures r == LineOf(whole, n) && r + Unread() == whole
    {
      hide LineOf, Begins, Overwrite;
      CompleteLine(buf.content, data, k, sock.incoming, n, whole);
      rbuf.Write(data[k..]);
      if |buf.content| != 0 {
        buf.Write(data[..k]);
        return buf.content;
      } else {
        return data[..k];
      }
    }

    lemma ContinueLine(b: seq<byte>, data: seq<byte>, rest: seq<byte>, n: int, whole: seq<byte>)
      requires Begins(b, n) && data != [] && (n < 0 || |b| + |data| < n)
      requires forall i :: 0 <= i < |data| ==> data[i] != NEWLINE
      requires b + (data + rest) == whole
      ensures Begins(b + data, n) && (b + data) + rest == whole
    {
      ExtendLine(b, data, rest, n);
    }

    /** What readline has collected so far is the unfinished beginning of the line of `whole`. */
    ghost predicate Collecting(buf: BinaryFile, size: int, whole: seq<byte>)
      reads this, rbuf, sock, buf
    {
      && buf != rbuf && buf.content + sock.incoming == whole
      && buf.pos == |buf.content| && Begins(buf.content, size)
      && rbuf.content == [] && rbuf.pos == 0
    }

    /** The case with a size: up to a newline, `size` bytes or the end. */
    method BoundedLine(buf: BinaryFile, size: nat) returns (r: seq<byte>)
      requires Valid() && buf == rbuf && Begins(buf.content, size) && buf.pos == |buf.content| < size
      modifies this`rbuf, buf, sock`incoming, sock`arrivals
      ensures Valid() && fresh(rbuf)
      ensures r == LineOf(old(Unread()), size)
      ensures r + Unread() == old(Unread())
    {
      ghost var whole := Unread();
      ResetRbuf([]);
      var line: Option<seq<byte>> := None;
      while line == None
        invariant fresh(rbuf)
        invariant line == None ==> Collecting(buf, size, whole)
        invariant line.Some? ==> line.value == LineOf(whole, size) && line.value + Unread() == whole
        decreases |sock.incoming|, line == None
      {
        line := BoundedStep(buf, size, whole);
      }
      return line.value;
    }

    /** One turn of its loop: the finished line, or None to go on. */
    method BoundedStep(buf: BinaryFile, size: nat, ghost whole: seq<byte>) returns (line: Option<seq<byte>>)
      requires Valid() && Collecting(buf, size, whole)
      modifies rbuf, buf, sock`incoming, sock`arrivals
      ensures line == None ==> Collecting(buf, size, whole) && |sock.incoming| < |old(sock.incoming)|
      ensures line.Some? ==> line.value == LineOf(whole, size) && line.value + Unread() == whole
      ensures |sock.incoming| <= |old(sock.incoming)|
    {
      assert |buf.content| < size;
      hide LineOf, Begins, FindNewline;
      var bufLen := buf.pos;
      var data := sock.Recv(rbufsize);
      if data == [] {
        WholeLine(buf.content, size);
        return Some(buf.content);
      }
      var left := size - bufLen;
      var nl := FindNewline(data, left);
      if nl >= 0 {
        nl := nl + 1;
        var r := FinishLine(buf, data, nl, size, whole);
        return Some(r);
      }
      var n := |data|;
      if n == size && bufLen == 0 {
        CompleteLine(buf.content, data, n, sock.incoming, size, whole);
        assert data[..n] == data && data[n..] == [];
        return Some(data);
      }
      if n >= left {
        var r := FinishLine(buf, data, left, size, whole);
        return Some(r);
      }
      ContinueLine(buf.content, data, sock.incoming, size, whole);
      buf.Write(data);
      return None;
    }

    /** readlines: the lines of the stream in order, all of them if there is no size hint. */
    method ReadLines(sizehint: int) returns (lines: seq<seq<byte>>)
      requires Valid()
      modifies this`rbuf, rbuf, sock`incoming, sock`arrivals
      ensures Valid() && (rbuf == old(rbuf) || fresh(rbuf))
      ensures lines == LinesUpTo(old(Unread()), sizehint, 0)
      ensures SplitLines(old(Unread())) == lines + SplitLines(Unread())
      ensures Join(lines) + Unread() == old(Unread())
      ensures sizehint == 0 ==> Unread() == []
      ensures sizehint != 0 ==> Unread() == [] || |Join(lines)| >= sizehint
    {
      hide LinesUpTo, LineOf, SplitLines;
      ghost var whole := Unread();
      var total := 0;
      lines := [];
      while true
        invariant Valid() && (rbuf == old(rbuf) || fresh(rbuf))
        invariant SplitLines(whole) == lines + SplitLines(Unread())
        invariant Join(lines) + Unread() == whole && total == |Join(lines)|
        invariant LinesUpTo(whole, sizehint, 0) == lines + LinesUpTo(Unread(), sizehint, total)
        decreases |Unread()|
      {
        ghost var before := Unread();
        var line := ReadLine(-1);
        LinesUpToStep(before, line, Unread(), sizehint, total);
        AddLine(whole, lines, before, line, Unread());
        if line == [] {
          return;
        }
        lines := lines + [line];
        total := total + |line|;
        if sizehint != 0 && total >= sizehint {
          return;
        }
      }
    }

    // ----- Writing

    /** flush: in chunks; what sendall did not take stays buffered. */
    method Flush() returns (ok: bool)
      requires Valid()
      modifies this`wbuf, this`wbufLen, sock`acked
      ensures Valid()
      ensures old(sock.acked) <= sock.acked
      ensures sock.acked + Unsent() == old(sock.acked) + old(Unsent())
      ensures ok <==> Unsent() == []
      ensures !ok ==> (|sock.acked| - |old(sock.acked)|) % Max(rbufsize, DEFAULT_BUFSIZE) == 0
    {
      if wbuf == [] {
        return true;
      }
      var data := Join(wbuf);
      NonemptyJoin(wbuf);
      wbuf := [];
      wbufLen := 0;
      var bufferSize := Max(rbufsize, DEFAULT_BUFSIZE);
      var offset := 0;
      ok := true;
      while ok && offset < |data|
        invariant 0 <= offset && wbuf == [] && wbufLen == 0
        invariant offset % bufferSize == 0
        invariant sock.acked == old(sock.acked) + data[..Min(offset, |data|)]
        invariant !ok ==> offset < |data|
        decreases |data| - offset, ok
      {
        var chunk := data[offset..Min(offset + bufferSize, |data|)];
        ok := sock.SendAll(chunk);
        if ok {
          assert data[..offset] + chunk == data[..Min(offset + bufferSize, |data|)];
          StepBlock(offset + bufferSize, bufferSize);
          offset := offset + bufferSize;
        }
      }
      if offset < |data| {
        var remainder := data[offset..];
        assert [] + [remainder] == [remainder];
        wbuf := wbuf + [remainder];
        wbufLen := |remainder|;
        assert data[..offset] + remainder == data;
        assert Join([remainder]) == remainder;
      }
    }

    /** write. */
    method Write(data: seq<byte>) returns (ok: bool)
      requires Valid()
      modifies this`wbuf, this`wbufLen, sock`acked
      ensures Valid()
      ensures old(sock.acked) <= sock.acked
      ensures sock.acked + Unsent() == old(sock.acked) + old(Unsent()) + data
      ensures ok && wbufsize > 1 ==> (|Unsent()| < wbufsize <==> data != [] || |old(Unsent())| < wbufsize)
      ensures data == [] ==> ok && wbuf == old(wbuf) && sock.acked == old(sock.acked)
      ensures ok && data != [] && wbufsize == 0 ==> Unsent() == []
      ensures ok && wbufsize == 1 && NEWLINE in data ==> Unsent() == []
      ensures !ok ==> (|sock.acked| - |old(sock.acked)|) % Max(rbufsize, DEFAULT_BUFSIZE) == 0
    {
      if data == [] {
        return true;
      }
      JoinConcat(wbuf, [data]);
      assert Join([data]) == data;
      wbuf := wbuf + [data];
      wbufLen := wbufLen + |data|;
      ok := true;
      if wbufsize == 0 || (wbufsize == 1 && NEWLINE in data) || (wbufsize > 1 && wbufLen >= wbufsize) {
        ok := Flush();
      }
    }

    /** writelines; empty strings are dropped first. */
    method WriteLines(list: seq<seq<byte>>) returns (ok: bool)
      requires Valid()
      modifies this`wbuf, this`wbufLen, sock`acked
      ensures Valid()
      ensures old(sock.acked) <= sock.acked
      ensures sock.acked + Unsent() == old(sock.acked) + old(Unsent()) + Join(list)
      ensures ok ==> Unsent() == [] || |Unsent()| < wbufsize
    {
      var lines := NonEmpty(list);
      NonEmptyJoin(list);
      JoinConcat(wbuf, lines);
      wbufLen := wbufLen + |Join(lines)|;
      wbuf := wbuf + lines;
      ok := true;
      if wbufsize <= 1 || wbufLen >= wbufsize {
        ok := Flush();
      }
    }
  }

  /** Reading one more line moves it from the unread part to the list. */
  lemma AddLine(whole: seq<byte>, lines: seq<seq<byte>>, before: seq<byte>, line: seq<byte>, after: seq<byte>)
    requires SplitLines(whole) == lines + SplitLines(before) && Join(lines) + before == whole
    requires line == LineOf(before, -1) && line + after == before
    ensures line == [] <==> before == []
    ensures line == [] ==> after == []
    ensures line != [] ==> SplitLines(whole) == (lines + [line]) + SplitLines(after)
    ensures Join(lines + [line]) + after == whole && |Join(lines + [line])| == |Join(lines)| + |line|
    ensures |after| <= |before| && (line != [] ==> |after| < |before|)
  {
    JoinOneMore(lines, line);
    hide LineOf, Join;
    LineNonEmpty(before);
    assert (Join(lines) + line) + after == Join(lines) + (line + after);
    if line != [] {
      assert before[|line|..] == after;
      assert SplitLines(before) == [line] + SplitLines(after);
      assert lines + ([line] + SplitLines(after)) == (lines + [line]) + SplitLines(after);
    }
  }

  lemma LineNonEmpty(s: seq<byte>)
    ensures LineOf(s, -1) == [] <==> s == []
  {
  }

  lemma JoinOneMore(lines: seq<seq<byte>>, line: seq<byte>)
    ensures Join(lines + [line]) == Join(lines) + line
  {
    JoinConcat(lines, [line]);
    assert Join([line]) == line;
  }

  lemma {:induction false} NonemptyJoin(parts: seq<seq<byte>>)
    requires parts != [] && forall i :: 0 <= i < |parts| ==> parts[i] != []
    ensures Join(parts) != []
  {
  }

  /** `filter(None, ...)`. */
  function NonEmpty(list: seq<seq<byte>>): (r: seq<seq<byte>>)
    ensures forall i :: 0 <= i < |r| ==> r[i] != []
  {
    if list == [] then [] else (if list[0] == [] then [] else [list[0]]) + NonEmpty(list[1..])
  }

  lemma {:induction false} NonEmptyJoin(list: seq<seq<byte>>)
    ensures Join(NonEmpty(list)) == Join(list)
  {
    if list != [] {
      NonEmptyJoin(list[1..]);
      assert [list[0]] + NonEmpty(list[1..]) != [] ;
      assert ([list[0]] + NonEmpty(list[1..]))[1..] == NonEmpty(list[1..]);
      assert [] + NonEmpty(list[1..]) == NonEmpty(list[1..]);
    }
  }

  /** A line more, or the end, of what readlines returns. */
  lemma LinesUpToStep(s: seq<byte>, line: seq<byte>, rest: seq<byte>, sizehint: int, total: nat)
    requires line == LineOf(s, -1) && line + rest == s
    ensures line == [] ==> LinesUpTo(s, sizehint, total) == []
    ensures line != [] ==>
              LinesUpTo(s, sizehint, total)
              == [line] + if sizehint != 0 && total + |line| >= sizehint then []
                          else LinesUpTo(rest, sizehint, total + |line|)
  {
    hide LineOf;
    LineNonEmpty(s);
    assert s[|line|..] == rest;
  }

  // ----- Whole runs of calls

  /** readline, read with a size, read without one, and readlines. */
  datatype ReadCall = LineCall(n: int) | BytesCall(count: nat) | AllCall | LinesCall(sizehint: int)

  /** What an ideal reader of the stream returns; only for read without a size the socket has a say. */
  function IdealOf(call: ReadCall, s: seq<byte>): (r: seq<seq<byte>>)
    requires !call.AllCall?
  {
    match call
    case LineCall(n) => [LineOf(s, n)]
    case BytesCall(count) => [s[..Min(count, |s|)]]
    case LinesCall(sizehint) => LinesUpTo(s, sizehint, 0)
  }

  /** `r` is an answer to a call when `s` is unread: a read without a size returns something if there is anything. */
  ghost predicate Answers(call: ReadCall, s: seq<byte>, r: seq<seq<byte>>) {
    if call.AllCall? then |r| == 1 && r[0] <= s && (r[0] == [] ==> s == []) else r == IdealOf(call, s)
  }

  /** Every call is answered from what the calls before it have left of `s`. */
  ghost predicate Answered(calls: seq<ReadCall>, s: seq<byte>, out: seq<seq<seq<byte>>>)
    decreases |calls|
  {
    if calls == [] then out == []
    else
      && out != [] && Answers(calls[0], s, out[0])
      && Join(out[0]) <= s && Answered(calls[1..], s[|Join(out[0])|..], out[1..])
  }

  /** Everything the calls returned, in order. */
  function Returned(out: seq<seq<seq<byte>>>): seq<byte> {
    if out == [] then [] else Join(out[0]) + Returned(out[1..])
  }

  method OneRead(f: FileObject, call: ReadCall) returns (r: seq<seq<byte>>)
    requires f.Valid()
    modifies f`rbuf, f.rbuf, f.sock`incoming, f.sock`arrivals
    ensures f.Valid() && (f.rbuf == old(f.rbuf) || fresh(f.rbuf))
    ensures Answers(call, old(f.Unread()), r) && Join(r) + f.Unread() == old(f.Unread())
  {
    hide LineOf, LinesUpTo;
    var part;
    match call {
      case LineCall(n) => part := f.ReadLine(n);
      case BytesCall(count) => part := f.Read(count);
      case AllCall => part := f.Read(-1);
      case LinesCall(sizehint) =>
        r := f.ReadLines(sizehint);
        return;
    }
    r := [part];
    OnePart(part);
    assert old(f.Unread())[..|part|] == part;
  }

  lemma OnePart(part: seq<byte>)
    ensures Join([part]) == part
  {
    assert [part][1..] == [] && part + [] == part;
  }

  /** Any mix of reads: every call is answered like by a reader of the whole stream, however recv cuts the stream and
      whatever the buffer size, and what the calls return and what is left make up the stream. */
  method RunReads(f: FileObject, calls: seq<ReadCall>) returns (out: seq<seq<seq<byte>>>)
    requires f.Valid()
    modifies f`rbuf, f.rbuf, f.sock`incoming, f.sock`arrivals
    ensures f.Valid() && (f.rbuf == old(f.rbuf) || fresh(f.rbuf))
    ensures Answered(calls, old(f.Unread()), out)
    ensures Returned(out) + f.Unread() == old(f.Unread())
  {
    hide Join, Answers, Answered, Returned;
    ghost var whole := f.Unread();
    out := [];
    NothingAsked(whole);
    assert calls[..0] == [] && calls[..|calls|] == calls;
    for i := 0 to |calls|
      invariant f.Valid() && (f.rbuf == old(f.rbuf) || fresh(f.rbuf))
      invariant Answered(calls[..i], whole, out) && Returned(out) + f.Unread() == whole
    {
      ghost var before := f.Unread();
      var r := OneRead(f, calls[i]);
      OneMoreAnswer(calls[..i], whole, out, calls[i], before, r, f.Unread());
      assert calls[..i + 1] == calls[..i] + [calls[i]];
      out := out + [r];
    }
  }

  lemma NothingAsked(s: seq<byte>)
    ensures Answered([], s, []) && Returned([]) + s == s
  {
  }

  lemma FirstAnswer(calls: seq<ReadCall>, s: seq<byte>, out: seq<seq<seq<byte>>>)
    requires Answered(calls, s, out) && calls != []
    ensures out != [] && Answers(calls[0], s, out[0]) && Join(out[0]) <= s
    ensures Answered(calls[1..], s[|Join(out[0])|..], out[1..]) && Returned(out) == Join(out[0]) + Returned(out[1..])
  {
    hide Answers, Join;
  }

  lemma LastAnswer(call: ReadCall, s: seq<byte>, r: seq<seq<byte>>, rest: seq<byte>)
    requires Answers(call, s, r) && Join(r) + rest == s
    ensures Answered([call], s, [r]) && Returned([r]) + rest == s
  {
    hide Answers, Join;
    assert [call][1..] == [] && [r][1..] == [] && s[|Join(r)|..] == rest && Join(r) + [] == Join(r);
  }

  lemma MoreAnswers(calls: seq<ReadCall>, s: seq<byte>, out: seq<seq<seq<byte>>>, call: ReadCall, r: seq<seq<byte>>)
    requires calls != [] && out != [] && Answers(calls[0], s, out[0]) && Join(out[0]) <= s
    requires Answered(calls[1..] + [call], s[|Join(out[0])|..], out[1..] + [r])
    ensures Answered(calls + [call], s, out + [r])
    ensures Returned(out + [r]) == Join(out[0]) + Returned(out[1..] + [r])
  {
    hide Answers, Join;
    assert (calls + [call])[1..] == calls[1..] + [call] && (out + [r])[1..] == out[1..] + [r];
  }

  lemma CutFirst(first: seq<byte>, more: seq<byte>, s: seq<byte>, whole: seq<byte>)
    requires first + more + s == whole
    ensures first <= whole && more + s == whole[|first|..]
  {
  }

  lemma {:induction false} OneMoreAnswer(calls: seq<ReadCall>, whole: seq<byte>, out: seq<seq<seq<byte>>>,
                                         call: ReadCall, s: seq<byte>, r: seq<seq<byte>>, rest: seq<byte>)
    requires Answered(calls, whole, out) && Returned(out) + s == whole
    requires Answers(call, s, r) && Join(r) + rest == s
    ensures Answered(calls + [call], whole, out + [r]) && Returned(out + [r]) + rest == whole
    decreases |calls|
  {
    hide *;
    if calls == [] {
      NoAnswer(calls, whole, out);
      assert calls + [call] == [call] && out + [r] == [r] && [] + s == s;
      LastAnswer(call, s, r, rest);
    } else {
      FirstAnswer(calls, whole, out);
      var first := Join(out[0]);
      CutFirst(first, Returned(out[1..]), s, whole);
      OneMoreAnswer(calls[1..], whole[|first|..], out[1..], call, s, r, rest);
      MoreAnswers(calls, whole, out, call, r);
      assert first + Returned(out[1..] + [r]) + rest == first + (Returned(out[1..] + [r]) + rest) == whole;
    }
  }

  lemma NoAnswer(calls: seq<ReadCall>, s: seq<byte>, out: seq<seq<seq<byte>>>)
    requires Answered(calls, s, out) && calls == []
    ensures out == [] && Returned(out) == []
  {
  }

  /** What the calls return when the whole stream is at hand. */
  function IdealRun(calls: seq<ReadCall>, s: seq<byte>): seq<seq<seq<byte>>>
    requires forall i :: 0 <= i < |calls| ==> !calls[i].AllCall?
    decreases |calls|
  {
    if calls == [] then []
    else
      var r := IdealOf(calls[0], s);
      [r] + IdealRun(calls[1..], if |Join(r)| <= |s| then s[|Join(r)|..] else [])
  }

  /** Without reads without a size the answers do not depend on the socket at all. */
  lemma {:induction false} AnswersAreIdeal(calls: seq<ReadCall>, s: seq<byte>, out: seq<seq<seq<byte>>>)
    requires Answered(calls, s, out) && forall i :: 0 <= i < |calls| ==> !calls[i].AllCall?
    ensures out == IdealRun(calls, s)
    decreases |calls|
  {
    hide IdealOf, Join;
    if calls != [] {
      assert !calls[0].AllCall?;
      AnswersAreIdeal(calls[1..], s[|Join(out[0])|..], out[1..]);
      assert out == [out[0]] + out[1..];
    }
  }

  datatype WriteCall = WriteCall(data: seq<byte>) | WriteLinesCall(list: seq<seq<byte>>) | FlushCall

  /** Everything the calls were given, in order. */
  function Written(calls: seq<WriteCall>): seq<byte> {
    if calls == [] then []
    else
      Written(calls[..|calls| - 1]) + WrittenBy(calls[|calls| - 1])
  }

  function WrittenBy(call: WriteCall): seq<byte> {
    match call
    case WriteCall(data) => data
    case WriteLinesCall(list) => Join(list)
    case FlushCall => []
  }

  lemma WrittenStep(before: seq<byte>, calls: seq<WriteCall>, i: nat)
    requires i < |calls|
    ensures before + Written(calls[..i]) + WrittenBy(calls[i]) == before + Written(calls[..i + 1])
  {
    assert calls[..i + 1][..i] == calls[..i];
  }

  method OneWrite(f: FileObject, call: WriteCall) returns (ok: bool)
    requires f.Valid()
    modifies f`wbuf, f`wbufLen, f.sock`acked
    ensures f.Valid()
    ensures f.sock.acked + f.Unsent() == old(f.sock.acked) + old(f.Unsent()) + WrittenBy(call)
  {
    match call {
      case WriteCall(data) => ok := f.Write(data);
      case WriteLinesCall(list) => ok := f.WriteLines(list);
      case FlushCall => ok := f.Flush();
    }
  }

  /** No byte is lost, duplicated or reordered by any run of writes and flushes, whichever of them fail. */
  method RunWrites(f: FileObject, calls: seq<WriteCall>)
    requires f.Valid()
    modifies f`wbuf, f`wbufLen, f.sock`acked
    ensures f.Valid()
    ensures f.sock.acked + f.Unsent() == old(f.sock.acked) + old(f.Unsent()) + Written(calls)
  {
    assert calls[..0] == [] && calls[..|calls|] == calls;
    ghost var before := f.sock.acked + f.Unsent();
    assert before + Written([]) == before;
    hide Written, WrittenBy, Join, FileObject.Unsent, FileObject.Valid;
    for i := 0 to |calls|
      invariant f.Valid()
      invariant f.sock.acked + f.Unsent() == before + Written(calls[..i])
    {
      WrittenStep(before, calls, i);
      var ok := OneWrite(f, calls[i]);
    }
  }

  /** Two bytes that arrive one after the other: read(-1) returns the first and leaves the second. */
  method ReadAllStopsShort() returns (f: FileObject, r: seq<byte>)
    ensures fresh(f) && f.Valid()
    ensures r == [1] && f.Unread() == [2]
  {
    var sock := new Socket;
    sock.incoming, sock.arrivals := [1, 2], [1];
    f := new FileObject(sock, -1);
    ghost var whole := f.Unread();
    assert whole == [1, 2];
    r := f.Read(-1);
    assert |r| == 1 && r[0] == whole[0] && f.Unread()[0] == whole[1];
  }

  /** The limit on pending bytes can fail: whenever a write of three bytes with a two-byte buffer fails, an empty write
      after it succeeds and leaves all three pending. */
  method EmptyWriteKeepsBacklog(sock: Socket) returns (f: FileObject, first: bool, ok: bool)
    modifies sock`acked
    ensures fresh(f) && f.wbufsize == 2
    ensures sock.acked + f.Unsent() == old(sock.acked) + [1, 2, 3]
    ensures first ==> |f.Unsent()| < f.wbufsize
    ensures !first ==> ok && |f.Unsent()| == 3
  {
    f := new FileObject(sock, 2);
    first := f.Write([1, 2, 3]);
    assert sock.acked + f.Unsent() == old(sock.acked) + [1, 2, 3];
    assert !first ==> |sock.acked + f.Unsent()| == |old(sock.acked)| + 3;
    ok := f.Write([]);
  }
}

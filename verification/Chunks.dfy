/** Snapshot chunking: splitting a byte stream into fixed-size chunks and joining it again. */
module Chunks {
  import opened Words

  // ---- The canonical split ----

  /** The chunks of a stream; with size 0 a non-empty stream is one chunk. */
  function Split(size: nat, s: Bytes): seq<Bytes>
    decreases |s|
  {
    if s == [] then []
    else if size == 0 || |s| <= size then [s]
    else [s[..size]] + Split(size, s[size..])
  }

  /** No chunk is empty, and with a positive size all but the last have exactly that size. */
  lemma {:induction false} SplitShape(size: nat, s: Bytes)
    ensures var c := Split(size, s);
            && (forall i :: 0 <= i < |c| ==> c[i] != [])
            && (size > 0 ==> forall i :: 0 <= i < |c| ==> |c[i]| <= size && (i < |c| - 1 ==> |c[i]| == size))
            && (size == 0 ==> |c| <= 1)
            && (s != [] ==> c != [])
    decreases |s|
  {
    if size > 0 && |s| > size {
      SplitShape(size, s[size..]);
    }
  }

  /** Joining the chunks gives the stream back. */
  lemma {:induction false} SplitJoins(size: nat, s: Bytes)
    ensures Flatten(Split(size, s)) == s
    decreases |s|
  {
    if s != [] && size > 0 && |s| > size {
      SplitJoins(size, s[size..]);
      assert s[..size] + s[size..] == s;
    } else if s != [] {
      assert [s][1..] == [];
    }
  }

  /** The last chunk still has room for `x`. */
  predicate Room(size: nat, c: seq<Bytes>, x: Bytes) {
    c != [] && (size == 0 || |c[|c| - 1]| + |x| <= size)
  }

  /** Writing into the last chunk. */
  function Extend(c: seq<Bytes>, x: Bytes): seq<Bytes>
    requires c != []
  {
    c[..|c| - 1] + [c[|c| - 1] + x]
  }

  lemma {:induction false} SplitExtend(size: nat, s: Bytes, x: Bytes)
    requires x != [] && Room(size, Split(size, s), x)
    ensures Split(size, s + x) == Extend(Split(size, s), x)
    decreases |s|
  {
    var c := Split(size, s);
    if size == 0 || |s| <= size {
      assert c == [s];
      assert Extend(c, x) == [s + x];
    } else {
      var rest := s[size..];
      var d := Split(size, rest);
      SplitShape(size, rest);
      assert c == [s[..size]] + d && c[|c| - 1] == d[|d| - 1];
      SplitExtend(size, rest, x);
      assert (s + x)[..size] == s[..size] && (s + x)[size..] == rest + x;
      assert Extend(c, x) == [s[..size]] + Extend(d, x);
    }
  }

  lemma {:induction false} SplitNew(size: nat, s: Bytes, x: Bytes)
    requires x != [] && (size > 0 ==> |x| <= size)
    requires s == [] || (size > 0 && |Split(size, s)| > 0 && |Split(size, s)[|Split(size, s)| - 1]| == size)
    ensures Split(size, s + x) == Split(size, s) + [x]
    decreases |s|
  {
    if s == [] {
      assert s + x == x;
    } else if |s| <= size {
      assert Split(size, s) == [s];
      assert (s + x)[..size] == s && (s + x)[size..] == x;
      assert Split(size, s + x) == [s] + Split(size, x);
      assert Split(size, x) == [x];
    } else {
      var rest := s[size..];
      SplitShape(size, rest);
      var c, d := Split(size, s), Split(size, rest);
      assert c == [s[..size]] + d && c[|c| - 1] == d[|d| - 1];
      SplitNew(size, rest, x);
      assert (s + x)[..size] == s[..size] && (s + x)[size..] == rest + x;
      assert Split(size, s + x) == [s[..size]] + Split(size, rest + x);
    }
  }

  // ---- ChunkWriter ----

  /**
    * `sent` holds the contents of the pipes put on the channel, the last one being the open pipe.
    * `stream` is everything written so far.
    */
  class ChunkWriter {
    const chunkSize: Uint64
    var sent: seq<Bytes>
    var written: nat
    var closed: bool
    ghost var stream: Bytes

    ghost predicate Valid()
      reads this
    {
      && sent == Split(chunkSize, stream)
      && written == if sent == [] then 0 else |sent[|sent| - 1]|
    }

    constructor (size: Uint64)
      ensures Valid() && chunkSize == size && stream == [] && !closed
    {
      chunkSize, sent, written, closed, stream := size, [], 0, false, [];
    }

    /** Puts `part` on the channel: in a new pipe when there is none or the current one is full. */
    method Emit(part: Bytes)
      requires Valid() && !closed && part != []
      requires chunkSize > 0 ==> |part| <= if sent == [] || written >= chunkSize then chunkSize else chunkSize - written
      modifies this`sent, this`written, this`stream
      ensures Valid() && stream == old(stream) + part
    {
      SplitShape(chunkSize, stream);
      if sent == [] || (written >= chunkSize && chunkSize > 0) {
        SplitNew(chunkSize, stream, part);
        sent := sent + [part];
        written := |part|;
      } else {
        SplitExtend(chunkSize, stream, part);
        sent := sent[..|sent| - 1] + [sent[|sent| - 1] + part];
        written := written + |part|;
      }
      stream := stream + part;
    }

    /** The chunks sent depend only on the whole stream, however it is cut into writes. */
    method Write(data: Bytes) returns (r: Option<nat>)
      requires Valid()
      modifies this`sent, this`written, this`stream
      ensures Valid()
      ensures old(closed) ==> r == None && stream == old(stream)
      ensures !old(closed) ==> r == Some(|data|) && stream == old(stream) + data
    {
      if closed {
        return None;
      }
      var rest, total := data, 0;
      assert stream + [] == stream;
      while rest != []
        invariant Valid() && !closed
        invariant 0 <= total <= |data| && rest == data[total..]
        invariant stream == old(stream) + data[..total]
        decreases |rest|
      {
        SplitShape(chunkSize, stream);
        var used := if sent == [] || (written >= chunkSize && chunkSize > 0) then 0 else written;
        var writeSize := if chunkSize == 0 then |rest| else chunkSize - used;
        if writeSize > |rest| {
          writeSize := |rest|;
        }
        Emit(rest[..writeSize]);
        assert data[..total] + rest[..writeSize] == data[..total + writeSize];
        total := total + writeSize;
        rest := rest[writeSize..];
      }
      assert data[..total] == data;
      r := Some(total);
    }

    method Close()
      requires Valid()
      modifies this`closed
      ensures Valid() && closed
    {
      closed := true;
    }
  }

  /** Cutting the same stream into writes in two ways sends the same chunks. */
  method WriteAll(w: ChunkWriter, parts: seq<Bytes>)
    requires w.Valid() && !w.closed && w.stream == []
    modifies w
    ensures w.Valid() && w.sent == Split(w.chunkSize, Flatten(parts))
  {
    for i := 0 to |parts|
      invariant w.Valid() && !w.closed
      invariant w.stream == Flatten(parts[..i])
    {
      var _ := w.Write(parts[i]);
      FlattenSnoc(parts[..i], parts[i]);
      assert parts[..i] + [parts[i]] == parts[..i + 1];
    }
    assert parts[..|parts|] == parts;
  }

  // ---- ChunkReader ----

  /** An underlying reader: what it has left, and whether it reports the end together with the last bytes. */
  datatype Source = Source(data: Bytes, eager: bool)

  function Contents(ss: seq<Source>): Bytes {
    if ss == [] then [] else ss[0].data + Contents(ss[1..])
  }

  predicate AnyEager(ss: seq<Source>) {
    exists i :: 0 <= i < |ss| && ss[i].eager && ss[i].data != []
  }

  /** The channel of chunks and the reader of the current one. */
  class ChunkReader {
    var ch: seq<Source>
    var reader: Option<Source>

    /** Every source not yet exhausted, the current one first. */
    ghost function Left(): seq<Source>
      reads this
    {
      if reader.Some? then [reader.value] + ch else ch
    }

    constructor (chunks: seq<Source>)
      ensures Left() == chunks
    {
      ch, reader := chunks, None;
    }

    /** The underlying reader: some bytes, or the end, which an eager reader reports with its last bytes. */
    method ReadChunk(k: nat) returns (data: Bytes, end: bool)
      requires k > 0 && reader.Some?
      modifies this`reader
      ensures var r := old(reader).value;
              if end then data == r.data && (data != [] ==> r.eager) && reader == None
              else data != [] && |data| <= k && data <= r.data
                   && reader == Some(Source(r.data[|data|..], r.eager)) && (r.eager ==> data < r.data)
    {
      var r := reader.value;
      if r.data == [] {
        reader := None;
        return [], true;
      }
      var n: nat :| 1 <= n <= k && n <= |r.data|;
      data := r.data[..n];
      end := r.eager && n == |r.data|;
      reader := if end then None else Some(Source(r.data[n..], r.eager));
    }

    /**
      * Reads at most `k` bytes; how many the underlying reader hands over is up to it. Bytes that come
      * together with the end of a chunk are dropped, because the end makes `Read` start over.
      */
    method Read(k: nat) returns (data: Bytes, eof: bool, ghost lost: Bytes)
      requires k > 0
      modifies this
      ensures Contents(old(Left())) == lost + data + Contents(Left())
      ensures eof ==> data == [] && Left() == []
      ensures !eof ==> data != [] && |data| <= k
      ensures lost == [] && AnyEager(old(Left())) ==> AnyEager(Left())
      ensures !AnyEager(old(Left())) ==> lost == [] && !AnyEager(Left())
      decreases |Left()|
    {
      if reader.None? {
        if ch == [] {
          return [], true, [];
        }
        Uncons(ch);
        reader, ch := Some(ch[0]), ch[1..];
      }
      ghost var r := reader.value;
      var end;
      data, end := ReadChunk(k);
      if end {
        ghost var more, rest := [], ch;
        data, eof, more := Read(k);
        lost := r.data + more;
        Dropped(r, rest, more, data, Left());
      } else {
        eof, lost := false, [];
        Consumed(r, ch, data);
      }
    }

    /**
      * Reading to the end with any positive buffer sizes returns the concatenation of the chunks if and
      * only if no non-empty chunk's reader reports its end together with its last bytes.
      */
    method ReadAll() returns (out: Bytes)
      modifies this
      ensures out == Contents(old(Left())) <==> !AnyEager(old(Left()))
    {
      out := [];
      ghost var all, dropped: nat := Contents(Left()), 0;
      var eof := false;
      while !eof
        invariant |all| == |out| + |Contents(Left())| + dropped
        invariant !AnyEager(old(Left())) ==> all == out + Contents(Left()) && dropped == 0 && !AnyEager(Left())
        invariant AnyEager(old(Left())) ==> dropped > 0 || AnyEager(Left())
        invariant eof ==> Left() == []
        decreases |Contents(Left())|, !eof
      {
        ghost var before := Contents(Left());
        var data: Bytes;
        ghost var lost: Bytes;
        var k: nat :| k > 0;
        data, eof, lost := Read(k);
        if lost == [] {
          assert out + (data + Contents(Left())) == out + data + Contents(Left());
          assert lost + data + Contents(Left()) == data + Contents(Left());
        }
        out := out + data;
        dropped := dropped + |lost|;
      }
    }
  }

  lemma Uncons(ss: seq<Source>)
    requires ss != []
    ensures ss == [ss[0]] + ss[1..]
  {
  }

  lemma {:induction false} ContentsCons(r: Source, ss: seq<Source>)
    ensures Contents([r] + ss) == r.data + Contents(ss)
    ensures AnyEager([r] + ss) <==> (r.eager && r.data != []) || AnyEager(ss)
  {
    var all := [r] + ss;
    assert all[1..] == ss;
    if AnyEager(ss) {
      var i :| 0 <= i < |ss| && ss[i].eager && ss[i].data != [];
      assert all[i + 1].eager && all[i + 1].data != [];
    } else if r.eager && r.data != [] {
      assert all[0].eager && all[0].data != [];
    }
  }

  /** Part of the first source was returned. */
  lemma {:induction false} Consumed(r: Source, ss: seq<Source>, data: Bytes)
    requires data <= r.data && (r.eager ==> data < r.data)
    ensures var r' := Source(r.data[|data|..], r.eager);
            && Contents([r] + ss) == [] + data + Contents([r'] + ss)
            && (AnyEager([r] + ss) <==> AnyEager([r'] + ss))
  {
    var r' := Source(r.data[|data|..], r.eager);
    ContentsCons(r, ss);
    ContentsCons(r', ss);
    assert r.data == data + r'.data;
    assert data + r'.data + Contents(ss) == [] + data + (r'.data + Contents(ss));
  }

  /** The first source ended, with whatever it still had, and reading went on. */
  lemma {:induction false} Dropped(r: Source, ss: seq<Source>, more: Bytes, data: Bytes, left: seq<Source>)
    requires Contents(ss) == more + data + Contents(left)
    ensures Contents([r] + ss) == (r.data + more) + data + Contents(left)
    ensures AnyEager([r] + ss) <==> (r.eager && r.data != []) || AnyEager(ss)
  {
    ContentsCons(r, ss);
    assert r.data + (more + data + Contents(left)) == (r.data + more) + data + Contents(left);
  }

  /** Chunks read through pipes, which never report the end with data. */
  function Piped(chunks: seq<Bytes>): seq<Source> {
    seq(|chunks|, i requires 0 <= i < |chunks| => Source(chunks[i], false))
  }

  lemma {:induction false} PipedContents(chunks: seq<Bytes>)
    ensures Contents(Piped(chunks)) == Flatten(chunks) && !AnyEager(Piped(chunks))
    decreases |chunks|
  {
    if chunks != [] {
      PipedContents(chunks[1..]);
      assert Piped(chunks)[1..] == Piped(chunks[1..]);
    }
  }

  /** Splitting any stream, in any writes, and reading the chunks back returns the stream. */
  method RoundTrip(size: Uint64, parts: seq<Bytes>) returns (out: Bytes)
    ensures out == Flatten(parts)
  {
    var w := new ChunkWriter(size);
    WriteAll(w, parts);
    PipedContents(w.sent);
    SplitJoins(size, Flatten(parts));
    var r := new ChunkReader(Piped(w.sent));
    out := r.ReadAll();
  }
}

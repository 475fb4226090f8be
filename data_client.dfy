/**
 * The binary data clients: RawClient.read and ChannelClient.read.
 *
 * Both accumulate what recv returns until enough bytes are present (or the
 * stream ends) and then decode fixed-width signed integers. The socket is
 * modelled by the sequence of chunks the peer delivers; the chunking is
 * arbitrary, and recv(max) may split a chunk.
 */
module DataClient {
  import opened Common
  import opened Wire

  /** The bytes a connection delivers before it closes: the chunks up to the first empty one. */
  function Delivered(chunks: seq<seq<Byte>>): seq<Byte>
  {
    if chunks == [] || chunks[0] == [] then [] else chunks[0] + Delivered(chunks[1..])
  }

  /** What the next recv(max) returns. */
  function FirstRecv(chunks: seq<seq<Byte>>, max: nat): (data: seq<Byte>)
    ensures |data| <= max
  {
    if chunks == [] || chunks[0] == [] then [] else chunks[0][..Min(max, |chunks[0]|)]
  }

  /** A data connection. recv hands out the delivered chunks in order. */
  class Connection {
    var chunks: seq<seq<Byte>>

    constructor (deliveries: seq<seq<Byte>>)
      ensures chunks == deliveries
    {
      chunks := deliveries;
    }

    /** The bytes still to be received. */
    function Pending(): seq<Byte>
      reads this
    {
      Delivered(chunks)
    }

    /**
     * sock.recv(max): at most max bytes of what is pending, in order; an empty
     * result means the peer has closed, and every later recv is empty too.
     */
    method Recv(max: nat) returns (data: seq<Byte>)
      requires max > 0
      modifies this
      ensures data == FirstRecv(old(chunks), max)
      ensures data + Pending() == old(Pending())
      ensures data == [] <==> old(Pending()) == []
      ensures data == [] ==> chunks == []
    {
      if chunks == [] || chunks[0] == [] {
        data := [];
        chunks := [];
      } else if |chunks[0]| <= max {
        data := chunks[0];
        assert chunks[0][..|chunks[0]|] == chunks[0];
        chunks := chunks[1..];
      } else {
        var head := chunks[0];
        data := head[..max];
        chunks := [head[max..]] + chunks[1..];
        assert Delivered(chunks) == head[max..] + Delivered(old(chunks)[1..]);
        assert data + head[max..] == head;
      }
    }
  }

  // ---------------------------------------------------------------------------
  // RawClient.read(nelems, data_size, ncols)

  /** nelems <= 0 means "to the end of the stream", approximated by 2**31 elements. */
  const UNBOUNDED_ELEMENTS := 0x8000_0000

  /** The number of bytes RawClient.read asks for. */
  function RawByteCount(nelems: int, dataSize: int, ncols: int): int
  {
    (if nelems <= 0 then UNBOUNDED_ELEMENTS else nelems) * dataSize * ncols
  }

  /** RawClient decodes as 'i4' when data_size is 4 and as 'i2' otherwise. */
  function RawWidth(dataSize: int): (w: nat)
    ensures w == 2 || w == 4
  {
    if dataSize == 4 then 4 else 2
  }

  /** How many bytes RawClient.read takes from a stream: the byte count, or less at end of stream. */
  function RawTaken(stream: seq<Byte>, nelems: int, dataSize: int, ncols: int): (n: nat)
    ensures n <= |stream| && n <= Max(0, RawByteCount(nelems, dataSize, ncols))
  {
    Max(0, Min(RawByteCount(nelems, dataSize, ncols), |stream|))
  }

  /** What RawClient.read returns for a stream, however it is fragmented. */
  function RawReadSpec(stream: seq<Byte>, nelems: int, dataSize: int, ncols: int): Result<seq<int>>
  {
    FromBuffer(stream[..RawTaken(stream, nelems, dataSize, ncols)], RawWidth(dataSize), -1)
  }

  /**
   * The read loop: recv at most the bytes still wanted, stop at the first
   * empty recv, then decode everything received.
   */
  method RawRead(conn: Connection, nelems: int, dataSize: int, ncols: int) returns (r: Result<seq<int>>)
    modifies conn
    ensures r == RawReadSpec(old(conn.Pending()), nelems, dataSize, ncols)
    ensures conn.Pending() == old(conn.Pending())[RawTaken(old(conn.Pending()), nelems, dataSize, ncols)..]
  {
    ghost var stream := conn.Pending();
    ghost var want := RawByteCount(nelems, dataSize, ncols);
    var n := if nelems <= 0 then UNBOUNDED_ELEMENTS else nelems;
    var bytestogo := n * dataSize * ncols;
    var totalBuf: seq<Byte> := [];
    assert bytestogo == want;
    while bytestogo > 0
      invariant stream == totalBuf + conn.Pending()
      invariant want > 0 ==> 0 <= bytestogo && bytestogo + |totalBuf| == want
      invariant want <= 0 ==> totalBuf == []
      decreases bytestogo
    {
      var newBuf := conn.Recv(bytestogo);
      if newBuf == [] {
        break;
      }
      bytestogo := bytestogo - |newBuf|;
      totalBuf := totalBuf + newBuf;
    }
    TakenOfLoop(stream, totalBuf, conn.Pending(), want, bytestogo);
    assert want == RawByteCount(nelems, dataSize, ncols);
    r := FromBuffer(totalBuf, RawWidth(dataSize), -1);
  }

  /** Where RawClient.read's loop stops: the prefix of the stream it received is the bytes it takes. */
  lemma TakenOfLoop(stream: seq<Byte>, totalBuf: seq<Byte>, pending: seq<Byte>, want: int, bytestogo: int)
    requires stream == totalBuf + pending
    requires want > 0 ==> 0 <= bytestogo && bytestogo + |totalBuf| == want
    requires want <= 0 ==> totalBuf == []
    requires bytestogo <= 0 || pending == []
    ensures totalBuf == stream[..|totalBuf|]
    ensures |totalBuf| == Max(0, Min(want, |stream|))
  {
    assert stream[..|totalBuf|] == totalBuf;
  }

  /** Reading nelems 16- or 32-bit samples gives back the samples the unit sent, however fragmented. */
  lemma RawReadRoundTrip(xs: seq<int>, dataSize: int, rest: seq<Byte>)
    requires dataSize == 2 || dataSize == 4
    requires xs != [] && forall i :: 0 <= i < |xs| ==> FitsSigned(xs[i], dataSize)
    ensures RawReadSpec(EncodeAll(xs, dataSize) + rest, |xs|, dataSize, 1) == Ok(xs)
  {
    var enc := EncodeAll(xs, dataSize);
    assert (enc + rest)[..|xs| * dataSize] == enc;
    FromBufferOfWholeEncoding(xs, dataSize, -1);
  }

  /** With nelems <= 0 the whole stream is read and decoded, up to the 2**31-element cap. */
  lemma RawReadToEnd(xs: seq<int>, nelems: int, dataSize: int)
    requires nelems <= 0 && (dataSize == 2 || dataSize == 4)
    requires |xs| <= UNBOUNDED_ELEMENTS && forall i :: 0 <= i < |xs| ==> FitsSigned(xs[i], dataSize)
    ensures RawReadSpec(EncodeAll(xs, dataSize), nelems, dataSize, 1) == Ok(xs)
  {
    var enc := EncodeAll(xs, dataSize);
    assert |enc| <= UNBOUNDED_ELEMENTS * dataSize;
    assert enc[..|enc|] == enc;
    FromBufferOfWholeEncoding(xs, dataSize, -1);
  }

  // ---------------------------------------------------------------------------
  // ChannelClient.read(ndata, data_size, maxbuf)

  /** ChannelClient.read's default largest recv. */
  const MAXBUF := 0x400000

  /**
   * The result of a blocking read. Hang stands for the fixed-count loop that
   * keeps calling recv on a closed stream: it has no end-of-stream exit.
   */
  datatype Outcome<+T> = Done(result: Result<T>) | Hang

  /** ChannelClient.read as a function of the delivered chunks. */
  function ChannelReadSpec(chunks: seq<seq<Byte>>, ndata: int, dataSize: int, maxbuf: nat): (o: Outcome<seq<int>>)
    requires maxbuf > 0
    // the dtype table has only 1, 2 and 4
    ensures dataSize != 1 && dataSize != 2 && dataSize != 4 <==> o == Done(Err(KeyError))
  {
    if dataSize != 1 && dataSize != 2 && dataSize != 4 then Done(Err(KeyError))
    else
      var stream := Delivered(chunks);
      if ndata == 0 || ndata == -1 then Done(FromBuffer(stream, dataSize, -1))
      else if ndata < 0 then Done(FromBuffer(FirstRecv(chunks, maxbuf), dataSize, ndata))
      else if |stream| < ndata * dataSize then Hang
      else Done(FromBuffer(stream[..ndata * dataSize], dataSize, ndata))
  }

  method ChannelRead(conn: Connection, ndata: int, dataSize: int, maxbuf: nat) returns (o: Outcome<seq<int>>)
    requires maxbuf > 0
    modifies conn
    ensures o == ChannelReadSpec(old(conn.chunks), ndata, dataSize, maxbuf)
  {
    if dataSize != 1 && dataSize != 2 && dataSize != 4 {
      return Done(Err(KeyError));
    }
    var buffer := conn.Recv(maxbuf);
    if ndata == 0 || ndata == -1 {
      var more := RecvToEnd(conn, maxbuf);
      var totalBuffer := buffer + more;
      return Done(FromBuffer(totalBuffer, dataSize, -1));
    }
    var closed;
    buffer, closed := RecvAtLeast(conn, buffer, ndata * dataSize, maxbuf);
    if closed {
      return Hang;
    }
    FixedCountResult(old(conn.chunks), buffer, ndata, dataSize, maxbuf);
    o := Done(FromBuffer(buffer, dataSize, ndata));
  }

  /** The open-ended loop of ChannelClient.read: recv until the peer closes. */
  method RecvToEnd(conn: Connection, maxbuf: nat) returns (more: seq<Byte>)
    requires maxbuf > 0
    modifies conn
    ensures more == old(conn.Pending()) && conn.Pending() == []
  {
    more := [];
    while true
      invariant old(conn.Pending()) == more + conn.Pending()
      decreases |conn.Pending()|
    {
      var buffer := conn.Recv(maxbuf);
      if buffer == [] {
        assert more + [] == more;
        return;
      }
      more := more + buffer;
    }
  }

  /**
   * The fixed-count loop of ChannelClient.read: recv until the buffer holds
   * want bytes. closed stands for an empty recv, on which the source's loop
   * spins for ever.
   */
  method RecvAtLeast(conn: Connection, first: seq<Byte>, want: int, maxbuf: nat) returns (buffer: seq<Byte>, closed: bool)
    requires maxbuf > 0
    modifies conn
    ensures closed <==> |first + old(conn.Pending())| < want
    ensures !closed ==> |buffer| >= want && |buffer| <= |first + old(conn.Pending())|
    ensures !closed ==> buffer == (first + old(conn.Pending()))[..|buffer|]
    ensures |first| >= want ==> buffer == first
  {
    ghost var stream := first + conn.Pending();
    buffer := first;
    while |buffer| < want
      invariant stream == buffer + conn.Pending()
      invariant |first| >= want ==> buffer == first
      decreases |conn.Pending()|
    {
      var more := conn.Recv(maxbuf);
      if more == [] {
        return buffer, true;
      }
      buffer := buffer + more;
    }
    assert stream[..|buffer|] == buffer;
    closed := false;
  }

  /** Where the fixed-count loop stops with a buffer received from the front of the stream, its decoding is the read's result. */
  lemma FixedCountResult(chunks: seq<seq<Byte>>, buffer: seq<Byte>, ndata: int, dataSize: int, maxbuf: nat)
    requires maxbuf > 0 && ndata != 0 && ndata != -1 && (dataSize == 1 || dataSize == 2 || dataSize == 4)
    requires |buffer| >= ndata * dataSize
    requires |buffer| <= |Delivered(chunks)| && buffer == Delivered(chunks)[..|buffer|]
    requires ndata < 0 ==> buffer == FirstRecv(chunks, maxbuf)
    ensures ChannelReadSpec(chunks, ndata, dataSize, maxbuf) == Done(FromBuffer(buffer, dataSize, ndata))
  {
    if ndata > 0 {
      var want := ndata * dataSize;
      FixedCountPrefix(Delivered(chunks), buffer, ndata, dataSize, want);
      ChannelReadSpecFixed(chunks, ndata, dataSize, maxbuf, want);
    }
  }

  /** Once the buffer holds ndata words, decoding it reads the first ndata words of the stream. */
  lemma FixedCountPrefix(stream: seq<Byte>, buffer: seq<Byte>, ndata: int, dataSize: int, want: nat)
    requires ndata > 0 && dataSize >= 1 && want == ndata * dataSize && |buffer| >= want
    requires |buffer| <= |stream| && buffer == stream[..|buffer|]
    ensures |stream| >= want
    ensures FromBuffer(buffer, dataSize, ndata) == FromBuffer(stream[..want], dataSize, ndata)
  {
    var r := FromBuffer(buffer, dataSize, ndata);
    assert r.Ok?;
    assert r == FromBuffer(buffer[..want], dataSize, ndata);
    assert buffer[..want] == stream[..want];
  }

  /** Fixed-count and open-ended reads depend only on the bytes delivered, not on their chunking. */
  lemma ChannelReadFragmentationIndependent(c1: seq<seq<Byte>>, c2: seq<seq<Byte>>, ndata: int,
                                            dataSize: int, maxbuf: nat)
    requires maxbuf > 0 && ndata >= -1 && Delivered(c1) == Delivered(c2)
    ensures ChannelReadSpec(c1, ndata, dataSize, maxbuf) == ChannelReadSpec(c2, ndata, dataSize, maxbuf)
  {
  }

  /** A fixed-count read returns exactly the first ndata samples sent, whatever follows them. */
  lemma ChannelReadRoundTrip(chunks: seq<seq<Byte>>, xs: seq<int>, dataSize: int, rest: seq<Byte>, maxbuf: nat)
    requires maxbuf > 0 && (dataSize == 1 || dataSize == 2 || dataSize == 4)
    requires xs != [] && forall i :: 0 <= i < |xs| ==> FitsSigned(xs[i], dataSize)
    requires Delivered(chunks) == EncodeAll(xs, dataSize) + rest
    ensures ChannelReadSpec(chunks, |xs|, dataSize, maxbuf) == Done(Ok(xs))
  {
    var enc := EncodeAll(xs, dataSize);
    var want := |xs| * dataSize;
    ChannelReadSpecFixed(chunks, |xs|, dataSize, maxbuf, want);
    assert Delivered(chunks)[..want] == (enc + rest)[..want];
    FromBufferOfEncoding(xs, dataSize, rest);
  }

  /** A fixed-count read of a stream that holds the want = ndata * dataSize bytes decodes its first want bytes. */
  lemma ChannelReadSpecFixed(chunks: seq<seq<Byte>>, ndata: int, dataSize: int, maxbuf: nat, want: int)
    requires maxbuf > 0 && ndata > 0 && (dataSize == 1 || dataSize == 2 || dataSize == 4)
    requires want == ndata * dataSize && 0 <= want <= |Delivered(chunks)|
    ensures ChannelReadSpec(chunks, ndata, dataSize, maxbuf) == Done(FromBuffer(Delivered(chunks)[..want], dataSize, ndata))
  {
  }

  /** An open-ended read (ndata 0 or -1) returns every sample sent before the stream closed. */
  lemma ChannelReadToEndRoundTrip(chunks: seq<seq<Byte>>, xs: seq<int>, ndata: int, dataSize: int, maxbuf: nat)
    requires maxbuf > 0 && (ndata == 0 || ndata == -1) && (dataSize == 1 || dataSize == 2 || dataSize == 4)
    requires forall i :: 0 <= i < |xs| ==> FitsSigned(xs[i], dataSize)
    requires Delivered(chunks) == EncodeAll(xs, dataSize)
    ensures ChannelReadSpec(chunks, ndata, dataSize, maxbuf) == Done(Ok(xs))
  {
    FromBufferOfWholeEncoding(xs, dataSize, -1);
  }

  /** A fixed-count read of a stream that closes early never returns. */
  lemma ChannelReadShortStreamHangs(chunks: seq<seq<Byte>>, ndata: int, dataSize: int, maxbuf: nat)
    requires maxbuf > 0 && ndata > 0 && (dataSize == 1 || dataSize == 2 || dataSize == 4)
    requires |Delivered(chunks)| < ndata * dataSize
    ensures ChannelReadSpec(chunks, ndata, dataSize, maxbuf) == Hang
  {
  }
}

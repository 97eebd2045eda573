/**
 Length-prefixed messages over a byte stream, and the streaming of a large file's body.  A stream
 is what the other end has sent and this end has not read yet; how much one read returns is up to
 the stream, so every statement here is about every way of splitting it.
 */
module Framing {
  import opened Types

  type Byte = b: int | 0 <= b < 256

  type Bytes = seq<Byte>

  const BUFFER_LEN: nat := 1_000_000

  // ---------------------------------------------------------------- little-endian words

  function ToLe(n: nat, width: nat): (r: Bytes)
    ensures |r| == width
  {
    if width == 0 then [] else [n % 256] + ToLe(n / 256, width - 1)
  }

  function FromLe(bs: Bytes): nat {
    if bs == [] then 0 else bs[0] + 256 * FromLe(bs[1..])
  }

  function Pow256(width: nat): (r: nat)
    ensures r > 0
  {
    if width == 0 then 1 else 256 * Pow256(width - 1)
  }

  lemma {:induction false} FromToLe(n: nat, width: nat)
    requires n < Pow256(width)
    ensures FromLe(ToLe(n, width)) == n
  {
    if width > 0 {
      FromToLe(n / 256, width - 1);
      assert ToLe(n, width)[1..] == ToLe(n / 256, width - 1);
    }
  }

  lemma LowByte(b: Byte, n: nat)
    ensures (b + 256 * n) % 256 == b && (b + 256 * n) / 256 == n
  {
  }

  lemma {:induction false} ToFromLe(bs: Bytes)
    ensures FromLe(bs) < Pow256(|bs|) && ToLe(FromLe(bs), |bs|) == bs
  {
    if bs != [] {
      ToFromLe(bs[1..]);
      LowByte(bs[0], FromLe(bs[1..]));
      assert bs == [bs[0]] + bs[1..];
    }
  }

  /** The byte order: the i-th byte of a word has the weight 256 to the i. */
  lemma {:induction false} ToLeAt(n: nat, width: nat, i: nat)
    requires i < width
    ensures ToLe(n, width)[i] == n / Pow256(i) % 256
  {
    if i > 0 {
      ToLeAt(n / 256, width - 1, i - 1);
      QuotientOfQuotient(n, Pow256(i - 1));
    }
  }

  lemma QuotientOfQuotient(n: nat, d: nat)
    requires d > 0
    ensures n / 256 / d == n / (256 * d)
  {
    var q, r := n / 256 / d, n / 256 % d;
    var low := 256 * r + n % 256;
    assert n == 256 * (q * d + r) + n % 256 == q * (256 * d) + low;
    assert r <= d - 1 && low < 256 * d;
    QuotientIs(n, 256 * d, q, low);
  }

  lemma QuotientIs(n: nat, d: nat, q: nat, r: nat)
    requires n == q * d + r && r < d
    ensures n / d == q
  {
    var other := n / d;
    assert n == other * d + n % d;
    if q > other {
      OneMoreMultiple(other, q, d);
    } else if q < other {
      OneMoreMultiple(q, other, d);
    }
  }

  lemma {:induction false} OneMoreMultiple(a: nat, b: nat, d: nat)
    requires a < b
    ensures a * d + d <= b * d
  {
    assert b * d == (b - 1) * d + d;
    if a < b - 1 {
      OneMoreMultiple(a, b - 1, d);
    }
  }

  /** A word on the wire: eight bytes, the lowest first. */
  ghost predicate IsWord(bs: Bytes, n: nat) {
    |bs| == 8 && forall i :: 0 <= i < 8 ==> bs[i] == n / Pow256(i) % 256
  }

  lemma ToLeIsWord(n: nat)
    ensures IsWord(ToLe(n, 8), n)
  {
    forall i | 0 <= i < 8 ensures ToLe(n, 8)[i] == n / Pow256(i) % 256 {
      ToLeAt(n, 8, i);
    }
  }

  lemma WordIsEightBytes()
    ensures Pow256(8) == U64_MAX + 1
  {
    assert Pow256(4) == 0x1_0000_0000;
  }

  // ---------------------------------------------------------------- frames

  /** The length as a 64-bit word, then the content. */
  function Frame(payload: Bytes): Bytes {
    ToLe(|payload|, 8) + payload
  }

  /** Reading one message: its content and what is left.  A stream that is too short is closed too early. */
  function Unframe(stream: Bytes): Option<(Bytes, Bytes)> {
    if |stream| < 8 then None
    else
      var length := FromLe(stream[..8]);
      // a read into an empty buffer returns nothing, which is taken for a closed connection
      if length == 0 || |stream| - 8 < length then None
      else Some((stream[8..8 + length], stream[8 + length..]))
  }

  /** What is on the wire: the length, low byte first, and behind it the content as it is. */
  lemma FrameOnTheWire(payload: Bytes)
    ensures IsWord(Frame(payload)[..8], |payload|) && Frame(payload)[8..] == payload
  {
    ToLeIsWord(|payload|);
    assert Frame(payload)[..8] == ToLe(|payload|, 8);
  }

  /** What is read is what was sent, no more and no less, exactly when there was something to send. */
  lemma UnframeIffFramed(stream: Bytes, payload: Bytes, rest: Bytes)
    requires |payload| <= U64_MAX
    ensures Unframe(stream) == Some((payload, rest)) <==> payload != [] && stream == Frame(payload) + rest
  {
    WordIsEightBytes();
    FromToLe(|payload|, 8);
    if payload != [] && stream == Frame(payload) + rest {
      assert stream[..8] == ToLe(|payload|, 8);
      assert stream[8..8 + |payload|] == payload && stream[8 + |payload|..] == rest;
    }
    if Unframe(stream) == Some((payload, rest)) {
      ToFromLe(stream[..8]);
      assert stream == stream[..8] + stream[8..8 + |payload|] + stream[8 + |payload|..];
    }
  }

  /** An empty message can be sent but not received. */
  lemma EmptyFrameIsRefused(rest: Bytes)
    ensures Unframe(Frame([]) + rest) == None
  {
    WordIsEightBytes();
    FromToLe(0, 8);
    assert (Frame([]) + rest)[..8] == ToLe(0, 8);
  }

  function Frames(payloads: seq<Bytes>): Bytes {
    if payloads == [] then [] else Frame(payloads[0]) + Frames(payloads[1..])
  }

  /** Reading `n` messages one after the other. */
  function UnframeMany(stream: Bytes, n: nat): Option<(seq<Bytes>, Bytes)>
    decreases n
  {
    if n == 0 then Some(([], stream))
    else match Unframe(stream)
         case None => None
         case Some((payload, rest)) =>
           match UnframeMany(rest, n - 1)
           case None => None
           case Some((more, end)) => Some(([payload] + more, end))
  }

  ghost predicate Sendable(payloads: seq<Bytes>) {
    forall i :: 0 <= i < |payloads| ==> 0 < |payloads[i]| <= U64_MAX
  }

  /** A conversation of non-empty messages is read back as it was sent, message by message, and nothing beyond it is touched. */
  lemma {:induction false} ConversationRoundTrip(payloads: seq<Bytes>, rest: Bytes)
    requires Sendable(payloads)
    ensures UnframeMany(Frames(payloads) + rest, |payloads|) == Some((payloads, rest))
    decreases |payloads|
  {
    if payloads == [] {
      assert Frames(payloads) + rest == rest;
    } else {
      var later := Frames(payloads[1..]) + rest;
      assert Frames(payloads) + rest == Frame(payloads[0]) + later;
      UnframeIffFramed(Frames(payloads) + rest, payloads[0], later);
      ConversationRoundTrip(payloads[1..], rest);
      assert [payloads[0]] + payloads[1..] == payloads;
    }
  }

  // ---------------------------------------------------------------- the stream

  /** What one read returns: something if there is something and room for it, but no more than both. */
  function ChunkSize(wanted: nat, remaining: nat, room: nat): (n: nat)
    ensures n <= remaining && n <= room
    ensures n == 0 <==> remaining == 0 || room == 0
  {
    var most := if remaining < room then remaining else room;
    if most == 0 then 0 else if wanted == 0 then 1 else if wanted < most then wanted else most
  }

  /**
   A socket or a file.  `sizes` decides each read by the position it starts at.  A read that returns
   anything moves the position on, so over the stream's whole life every way of splitting it is one
   of these.
   */
  class ByteStream {
    var bytes: Bytes
    var position: nat
    const sizes: nat -> nat

    constructor (bytes: Bytes, sizes: nat -> nat)
      ensures this.bytes == bytes && this.sizes == sizes && position == 0
    {
      this.bytes, this.sizes, this.position := bytes, sizes, 0;
    }

    /** Zero bytes mean that the other end is done, or that there was no room. */
    method Read(buffer: array<Byte>, start: nat) returns (n: nat)
      requires start <= buffer.Length
      modifies this, buffer
      ensures n == ChunkSize(sizes(old(position)), |old(bytes)|, buffer.Length - start)
      ensures bytes == old(bytes)[n..] && position == old(position) + n
      ensures buffer[..] == old(buffer[..start]) + old(bytes)[..n] + old(buffer[start + n..])
      ensures buffer[start..start + n] == old(bytes)[..n]
    {
      n := ChunkSize(sizes(position), |bytes|, buffer.Length - start);
      for i := 0 to n
        invariant bytes == old(bytes) && position == old(position)
        invariant buffer[..] == old(buffer[..start]) + bytes[..i] + old(buffer[start + i..])
      {
        buffer[start + i] := bytes[i];
        assert bytes[..i + 1] == bytes[..i] + [bytes[i]];
      }
      assert buffer[start..start + n] == bytes[..n];
      bytes, position := bytes[n..], position + n;
    }

    method WriteAll(data: Bytes)
      modifies this`bytes
      ensures bytes == old(bytes) + data
    {
      bytes := bytes + data;
    }
  }

  // ---------------------------------------------------------------- messages

  /** Fill a buffer from the connection, however many reads it takes. */
  method ReadBufferBytes(buffer: array<Byte>, conn: ByteStream) returns (ok: bool)
    modifies buffer, conn
    ensures ok <==> 0 < buffer.Length <= |old(conn.bytes)|
    ensures ok ==> buffer[..] == old(conn.bytes)[..buffer.Length] && conn.bytes == old(conn.bytes)[buffer.Length..]
    ensures ok ==> conn.position == old(conn.position) + buffer.Length
  {
    var startingIdx: nat := 0;
    while true
      invariant startingIdx <= buffer.Length && startingIdx <= |old(conn.bytes)|
      invariant startingIdx == buffer.Length ==> startingIdx == 0
      invariant buffer[..startingIdx] == old(conn.bytes)[..startingIdx]
      invariant conn.bytes == old(conn.bytes)[startingIdx..] && conn.position == old(conn.position) + startingIdx
      decreases |conn.bytes|
    {
      ghost var before := buffer[..];
      var bytesRead := conn.Read(buffer, startingIdx);
      if bytesRead == 0 {
        return false;
      }
      FillSoFar(before, buffer[..], old(conn.bytes), startingIdx, bytesRead);
      startingIdx := startingIdx + bytesRead;
      if startingIdx == buffer.Length {
        assert buffer[..] == buffer[..startingIdx];
        return true;
      }
    }
  }

  lemma FillSoFar(before: Bytes, after: Bytes, stream: Bytes, start: nat, n: nat)
    requires start + n <= |before| && start + n <= |stream|
    requires before[..start] == stream[..start]
    requires after == before[..start] + stream[start..][..n] + before[start + n..]
    ensures after[..start + n] == stream[..start + n]
    ensures stream[start..][n..] == stream[start + n..]
  {
    assert stream[..start + n] == stream[..start] + stream[start..][..n];
  }

  method Transport(conn: ByteStream, data: Bytes)
    modifies conn`bytes
    ensures conn.bytes == old(conn.bytes) + Frame(data)
    ensures var sent := conn.bytes[|old(conn.bytes)|..]; |sent| >= 8 && IsWord(sent[..8], |data|) && sent[8..] == data
  {
    FrameOnTheWire(data);
    ghost var before := conn.bytes;
    assert (before + Frame(data))[|before|..] == Frame(data);
    conn.WriteAll(ToLe(|data|, 8));
    conn.WriteAll(data);
    assert old(conn.bytes) + Frame(data) == old(conn.bytes) + ToLe(|data|, 8) + data;
  }

  method Receive(conn: ByteStream) returns (r: Option<Bytes>)
    modifies conn
    ensures match Unframe(old(conn.bytes))
            case None => r == None
            case Some((payload, rest)) => r == Some(payload) && conn.bytes == rest
  {
    ghost var stream := conn.bytes;
    var buf := new Byte[8];
    var ok := ReadBufferBytes(buf, conn);
    if !ok {
      return None;
    }
    var contentLength := FromLe(buf[..]);
    var content := new Byte[contentLength];
    ok := ReadBufferBytes(content, conn);
    if !ok {
      return None;
    }
    assert stream[8..][..contentLength] == stream[8..8 + contentLength];
    assert stream[8..][contentLength..] == stream[8 + contentLength..];
    return Some(content[..]);
  }

  // ---------------------------------------------------------------- large bodies

  /**
   Copying `length` bytes from a stream, `running` of them already copied and the first of them at
   position `start`: whether the copying ended, what was copied, and what is left in the stream.
   Reads are not cut at the end of the body.
   */
  function Pump(stream: Bytes, length: nat, running: nat, sizes: nat -> nat, start: nat): (bool, Bytes, Bytes)
    decreases |stream|
  {
    var n := ChunkSize(sizes(start + running), |stream|, BUFFER_LEN);
    if n == 0 then (false, [], stream)
    else if running + n == length then (true, stream[..n], stream[n..])
    else
      var (ok, written, left) := Pump(stream[n..], length, running + n, sizes, start);
      (ok, stream[..n] + written, left)
  }

  /** `all` is the outcome of a copy of which `written` is done and `stream` is still to be read. */
  ghost predicate Pumping(all: (bool, Bytes, Bytes), written: Bytes, stream: Bytes, length: nat, running: nat,
                          sizes: nat -> nat, start: nat)
  {
    var (ok, more, left) := Pump(stream, length, running, sizes, start);
    all == (ok, written + more, left)
  }

  lemma PumpRound(all: (bool, Bytes, Bytes), written: Bytes, stream: Bytes, length: nat, running: nat,
                  sizes: nat -> nat, start: nat)
    requires Pumping(all, written, stream, length, running, sizes, start)
    ensures var n := ChunkSize(sizes(start + running), |stream|, BUFFER_LEN);
            if n == 0 then all == (false, written, stream)
            else if running + n == length then all == (true, written + stream[..n], stream[n..])
            else Pumping(all, written + stream[..n], stream[n..], length, running + n, sizes, start)
  {
    var n := ChunkSize(sizes(start + running), |stream|, BUFFER_LEN);
    if n == 0 {
      assert written + [] == written;
    } else if running + n != length {
      var more := Pump(stream[n..], length, running + n, sizes, start).1;
      assert written + (stream[..n] + more) == written + stream[..n] + more;
    }
  }

  lemma PumpStarts(stream: Bytes, length: nat, sizes: nat -> nat, start: nat)
    ensures Pumping(Pump(stream, length, 0, sizes, start), [], stream, length, 0, sizes, start)
  {
    var all := Pump(stream, length, 0, sizes, start);
    assert [] + all.1 == all.1;
  }

  /** Streaming a file whose length was looked up before: the loop ends when it has sent that many bytes. */
  function Streamed(file: Bytes, length: nat, sizes: nat -> nat, start: nat): (bool, Bytes, Bytes) {
    if file == [] && length == 0 then (true, [], []) else Pump(file, length, 0, sizes, start)
  }

  /** The same as `Pumping`, for a loop that looks at the count before it looks for the end of the file. */
  ghost predicate Streaming(all: (bool, Bytes, Bytes), sent: Bytes, stream: Bytes, length: nat, total: nat,
                            sizes: nat -> nat, start: nat)
  {
    if stream == [] && length == total then all == (true, sent, [])
    else Pumping(all, sent, stream, length, total, sizes, start)
  }

  lemma StreamStarts(file: Bytes, length: nat, sizes: nat -> nat, start: nat)
    ensures Streaming(Streamed(file, length, sizes, start), [], file, length, 0, sizes, start)
  {
    PumpStarts(file, length, sizes, start);
  }

  lemma StreamRound(all: (bool, Bytes, Bytes), sent: Bytes, stream: Bytes, length: nat, total: nat,
                    sizes: nat -> nat, start: nat)
    requires Streaming(all, sent, stream, length, total, sizes, start) && (total == length ==> total == 0)
    ensures var n := ChunkSize(sizes(start + total), |stream|, BUFFER_LEN);
            if total + n == length then all == (true, sent + stream[..n], stream[n..])
            else if n == 0 then all == (false, sent, stream)
            else Streaming(all, sent + stream[..n], stream[n..], length, total + n, sizes, start)
  {
    var n := ChunkSize(sizes(start + total), |stream|, BUFFER_LEN);
    if stream == [] && length == total {
      assert sent + [] == sent;
    } else {
      PumpRound(all, sent, stream, length, total, sizes, start);
    }
  }

  /** One read of a copying loop: as much as the stream gives and the buffer holds. */
  method ReadChunk(stream: ByteStream, buffer: array<Byte>) returns (chunk: Bytes)
    requires buffer.Length == BUFFER_LEN
    modifies stream, buffer
    ensures var n := ChunkSize(stream.sizes(old(stream.position)), |old(stream.bytes)|, BUFFER_LEN);
            && |chunk| == n && chunk == old(stream.bytes)[..n]
            && stream.bytes == old(stream.bytes)[n..] && stream.position == old(stream.position) + n
  {
    var n := stream.Read(buffer, 0);
    chunk := buffer[0..n];
  }

  lemma Reassociate(a: Bytes, b: Bytes, c: Bytes)
    ensures a + b + c == a + (b + c)
  {
  }

  /**
   `length` was read from the file's metadata, and the file may have changed since.  `ended` is false
   when the source's loop goes round for ever: the reader is used up, the count is not the length,
   and every further round reads and sends nothing.
   */
  method TransportFromReader(conn: ByteStream, reader: ByteStream, length: nat) returns (ended: bool)
    requires conn != reader
    modifies conn`bytes, reader
    ensures var (done, sent, left) := Streamed(old(reader.bytes), length, reader.sizes, old(reader.position));
            ended == done && conn.bytes == old(conn.bytes) + ToLe(length, 8) + sent && reader.bytes == left
    ensures IsWord(ToLe(length, 8), length)
  {
    ToLeIsWord(length);
    conn.WriteAll(ToLe(length, 8));
    ended := CopyFromReader(conn, reader, length);
  }

  /** The loop of it; an empty file of length zero ends in the first round. */
  method CopyFromReader(conn: ByteStream, reader: ByteStream, length: nat) returns (ended: bool)
    requires conn != reader
    modifies conn`bytes, reader
    ensures var (done, sent, left) := Streamed(old(reader.bytes), length, reader.sizes, old(reader.position));
            ended == done && conn.bytes == old(conn.bytes) + sent && reader.bytes == left
  {
    ghost var start := reader.position;
    ghost var all := Streamed(reader.bytes, length, reader.sizes, start);
    StreamStarts(reader.bytes, length, reader.sizes, start);
    ghost var sent: Bytes := [];
    assert conn.bytes + [] == conn.bytes;
    var buffer := new Byte[BUFFER_LEN];
    var totalBytes: nat := 0;
    while true
      invariant Streaming(all, sent, reader.bytes, length, totalBytes, reader.sizes, start)
      invariant reader.position == start + totalBytes && conn.bytes == old(conn.bytes) + sent
      invariant totalBytes == length ==> totalBytes == 0
      decreases |reader.bytes|
    {
      StreamRound(all, sent, reader.bytes, length, totalBytes, reader.sizes, start);
      var chunk := ReadChunk(reader, buffer);
      conn.WriteAll(chunk);
      Reassociate(old(conn.bytes), sent, chunk);
      sent := sent + chunk;
      totalBytes := totalBytes + |chunk|;
      if totalBytes == length {
        return true;
      }
      if |chunk| == 0 {
        assert sent + [] == sent;
        return false;
      }
    }
  }

  method ReceiveToWriter(conn: ByteStream) returns (ok: bool, written: Bytes)
    modifies conn
    ensures if |old(conn.bytes)| < 8 then !ok && written == []
            else
              (ok, written, conn.bytes)
              == Pump(old(conn.bytes)[8..], FromLe(old(conn.bytes)[..8]), 0, conn.sizes, old(conn.position) + 8)
    ensures |old(conn.bytes)| >= 8 ==>
      && old(conn.bytes)[8..] == written + conn.bytes
      && (if ok then |written| == FromLe(old(conn.bytes)[..8]) else conn.bytes == [])
  {
    ghost var stream := conn.bytes;
    if |stream| >= 8 {
      PumpOutcome(stream[8..], FromLe(stream[..8]), 0, conn.sizes, conn.position + 8);
    }
    var buf := new Byte[8];
    var header := ReadBufferBytes(buf, conn);
    if !header {
      return false, [];
    }
    ok, written := CopyToWriter(conn, FromLe(buf[..]));
  }

  /** The loop of it. */
  method CopyToWriter(conn: ByteStream, contentLength: nat) returns (ok: bool, written: Bytes)
    modifies conn
    ensures (ok, written, conn.bytes) == Pump(old(conn.bytes), contentLength, 0, conn.sizes, old(conn.position))
  {
    ghost var start := conn.position;
    ghost var all := Pump(conn.bytes, contentLength, 0, conn.sizes, start);
    PumpStarts(conn.bytes, contentLength, conn.sizes, start);
    var tmpBuffer := new Byte[BUFFER_LEN];
    var runningLength: nat := 0;
    written := [];
    while true
      invariant Pumping(all, written, conn.bytes, contentLength, runningLength, conn.sizes, start)
      invariant conn.position == start + runningLength
      decreases |conn.bytes|
    {
      PumpRound(all, written, conn.bytes, contentLength, runningLength, conn.sizes, start);
      var chunk := ReadChunk(conn, tmpBuffer);
      if |chunk| == 0 {
        return false, written;
      }
      written := written + chunk;
      runningLength := runningLength + |chunk|;
      if runningLength == contentLength {
        return true, written;
      }
    }
  }

  lemma {:induction false} PumpIsExact(body: Bytes, length: nat, running: nat, sizes: nat -> nat, start: nat)
    requires body != [] && running + |body| == length
    ensures Pump(body, length, running, sizes, start) == (true, body, [])
    decreases |body|
  {
    var n := ChunkSize(sizes(start + running), |body|, BUFFER_LEN);
    if n < |body| {
      PumpIsExact(body[n..], length, running + n, sizes, start);
      assert body[..n] + body[n..] == body;
    } else {
      assert body[..n] == body && body[n..] == [];
    }
  }

  /** Past the length, or with too little to reach it, everything is copied and the copying does not end well. */
  lemma {:induction false} PumpMisses(stream: Bytes, length: nat, running: nat, sizes: nat -> nat, start: nat)
    requires length <= running || running + |stream| < length
    ensures Pump(stream, length, running, sizes, start) == (false, stream, [])
    decreases |stream|
  {
    var n := ChunkSize(sizes(start + running), |stream|, BUFFER_LEN);
    if n > 0 {
      PumpMisses(stream[n..], length, running + n, sizes, start);
      assert stream[..n] + stream[n..] == stream;
    }
  }

  /**
   Whatever the chunks and whatever the length: what is written is the front of the stream and what
   is left is the rest; a copy that ends well has copied the length, one that does not has copied all.
   */
  lemma {:induction false} PumpOutcome(stream: Bytes, length: nat, running: nat, sizes: nat -> nat, start: nat)
    ensures var (ok, written, left) := Pump(stream, length, running, sizes, start);
            stream == written + left && if ok then running + |written| == length else left == []
    decreases |stream|
  {
    var n := ChunkSize(sizes(start + running), |stream|, BUFFER_LEN);
    if n > 0 && running + n != length {
      PumpOutcome(stream[n..], length, running + n, sizes, start);
      var (_, written, left) := Pump(stream[n..], length, running + n, sizes, start);
      Reassociate(stream[..n], written, left);
      assert stream[..n] + stream[n..] == stream;
    }
  }

  /** Bytes come one at a time, except that the one at `last` comes with the next. */
  function Straddling(last: nat): nat -> nat {
    at => if at == last then 2 else 1
  }

  lemma {:induction false} PumpStraddled(body: Bytes, rest: Bytes, length: nat, running: nat, start: nat)
    requires body != [] && rest != [] && running + |body| == length
    ensures Pump(body + rest, length, running, Straddling(start + length - 1), start) == (false, body + rest, [])
    decreases |body|
  {
    var stream, sizes := body + rest, Straddling(start + length - 1);
    var n := ChunkSize(sizes(start + running), |stream|, BUFFER_LEN);
    if |body| == 1 {
      assert n == 2;
      PumpMisses(stream[2..], length, running + 2, sizes, start);
      assert stream[..2] + stream[2..] == stream;
    } else {
      assert n == 1 && stream[1..] == body[1..] + rest;
      PumpStraddled(body[1..], rest, length, running + 1, start);
      assert stream[..1] + stream[1..] == stream;
    }
  }

  /**
   The reads of a body are not cut at its end.  So it is copied exactly, whatever the chunks, if
   and only if nothing is in the stream behind it; and an empty body is never copied.
   */
  lemma StreamingIsExactIffNothingFollows(body: Bytes, rest: Bytes, start: nat)
    ensures (forall sizes: nat -> nat :: Pump(body + rest, |body|, 0, sizes, start) == (true, body, rest))
       <==> body != [] && rest == []
  {
    if body == [] {
      PumpMisses(body + rest, 0, 0, Straddling(0), start);
    } else if rest != [] {
      PumpStraddled(body, rest, |body|, 0, start);
    } else {
      assert body + rest == body;
      forall sizes: nat -> nat ensures Pump(body + rest, |body|, 0, sizes, start) == (true, body, rest) {
        PumpIsExact(body, |body|, 0, sizes, start);
      }
    }
  }

  /**
   The sender's loop ends, however the file is read, if and only if the file is as long as was
   announced; and then it has sent the file.
   */
  lemma SendingEndsIffLengthHolds(file: Bytes, length: nat, start: nat)
    ensures (forall sizes: nat -> nat :: Streamed(file, length, sizes, start).0) <==> length == |file|
    ensures length == |file| ==> forall sizes: nat -> nat :: Streamed(file, length, sizes, start) == (true, file, [])
  {
    if length == |file| {
      forall sizes: nat -> nat ensures Streamed(file, length, sizes, start) == (true, file, []) {
        if file != [] {
          PumpIsExact(file, length, 0, sizes, start);
        }
      }
    } else {
      var sizes := NeverEnding(file, length, start);
      assert !Streamed(file, length, sizes, start).0;
    }
  }

  /** A way of reading a file of another length on which the loop does not end. */
  lemma NeverEnding(file: Bytes, length: nat, start: nat) returns (sizes: nat -> nat)
    requires length != |file|
    ensures !Streamed(file, length, sizes, start).0
  {
    if |file| < length || length == 0 {
      sizes := Straddling(0);
      PumpMisses(file, length, 0, sizes, start);
    } else {
      sizes := Straddling(start + length - 1);
      PumpStraddled(file[..length], file[length..], length, 0, start);
      assert file[..length] + file[length..] == file;
    }
  }

  /** The frame of a file, as the receiving loop sees it. */
  lemma FrameSplits(content: Bytes)
    requires |content| <= U64_MAX
    ensures |Frame(content)| >= 8 && FromLe(Frame(content)[..8]) == |content| && Frame(content)[8..] == content
  {
    WordIsEightBytes();
    FromToLe(|content|, 8);
    assert Frame(content)[..8] == ToLe(|content|, 8);
  }

  /**
   A large file crosses a stream that holds nothing else.  The transfer loop establishes this, and
   `Protocol.BodyTravelsAlone` is the reason: the sender streams a body only after the other end said
   it awaits it, and sends nothing more until that end has answered.
   */
  method CopyLargeFile(conn: ByteStream, file: ByteStream) returns (ok: bool, written: Bytes)
    requires conn != file && conn.bytes == [] && 0 < |file.bytes| <= U64_MAX
    modifies conn, file
    ensures ok && written == old(file.bytes) && conn.bytes == []
  {
    ghost var content := file.bytes;
    SendingEndsIffLengthHolds(content, |content|, file.position);
    var ended := TransportFromReader(conn, file, |file.bytes|);
    assert conn.bytes == Frame(content);
    FrameSplits(content);
    PumpIsExact(content, |content|, 0, conn.sizes, conn.position + 8);
    ok, written := ReceiveToWriter(conn);
  }
}

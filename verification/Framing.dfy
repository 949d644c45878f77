/**
 Newline framing between core and launcher (internal/coretransport/server.go, client.go): a reader with a bounded buffer
 over a connection that delivers bytes in pieces of any size.
 */
module Framing {
  import opened Common

  type Byte = x: int | 0 <= x < 256
  type Bytes = seq<Byte>

  const NEWLINE: Byte := 10

  // ----- What reading a frame means -----

  /** Position of the first newline, or the length. */
  function FirstNewline(bytes: Bytes): (n: nat)
    ensures n <= |bytes| && (n < |bytes| ==> bytes[n] == NEWLINE)
    ensures forall i | 0 <= i < n :: bytes[i] != NEWLINE
  {
    if bytes == [] || bytes[0] == NEWLINE then 0 else 1 + FirstNewline(bytes[1..])
  }

  datatype FrameError = TooLarge | EndOfStream

  /** The frame at the head of the unread bytes: a line of at most `max` bytes with its newline. */
  function NextFrame(unread: Bytes, max: nat): Result<Bytes, FrameError> {
    var n := FirstNewline(unread);
    if n < |unread| && n + 1 <= max then Ok(unread[..n + 1])
    else if |unread| > max then Err(TooLarge)
    else Err(EndOfStream)
  }

  lemma NewlineAt(bytes: Bytes, i: nat)
    requires i < |bytes| && bytes[i] == NEWLINE && forall j | 0 <= j < i :: bytes[j] != NEWLINE
    ensures FirstNewline(bytes) == i
  {
  }

  lemma NoNewline(bytes: Bytes, i: nat)
    requires i <= |bytes| && forall j | 0 <= j < i :: bytes[j] != NEWLINE
    ensures FirstNewline(bytes) >= i
  {
  }

  // ----- The buffered reader -----

  datatype Chunk = Line | BufferFull | Ended

  /** What a chunk says about the frame, given the part of the line before it. */
  lemma ChunkDecides(line: Bytes, chunk: Bytes, kind: Chunk, rest: Bytes, max: nat)
    requires NEWLINE !in line
    requires kind == Line ==> chunk != [] && FirstNewline(chunk) == |chunk| - 1
    requires kind != Line ==> NEWLINE !in chunk
    requires kind == Ended ==> rest == []
    ensures var unread := line + chunk + rest;
      && (|line| + |chunk| > max && |line| <= max ==> NextFrame(unread, max) == Err(TooLarge))
      && (|line| + |chunk| <= max && kind == Line ==> NextFrame(unread, max) == Ok(line + chunk))
      && (|line| + |chunk| <= max && kind == Ended ==> NextFrame(unread, max) == Err(EndOfStream))
  {
    var head, unread := line + chunk, line + chunk + rest;
    assert unread == head + rest && unread[..|head|] == head;
    assert forall i | 0 <= i < |head| :: unread[i] == head[i];
    if kind == Line { NewlineAt(unread, |head| - 1); } else { NoNewline(unread, |head|); }
  }

  class Reader {
    const size: nat
    var buffer: Bytes
    var stream: Bytes
    /** Upper bounds on what the coming network reads deliver; a read without one delivers all there is room for. */
    var arrivals: seq<nat>

    constructor (size: nat, stream: Bytes, arrivals: seq<nat>)
      requires size > 0
      ensures this.size == size && this.stream == stream && buffer == [] && Valid()
    {
      this.size, this.stream, this.arrivals, buffer := size, stream, arrivals, [];
    }

    ghost predicate Valid()
      reads this
    {
      0 < size && |buffer| <= size
    }

    ghost function Unread(): Bytes
      reads this
    {
      buffer + stream
    }

    /** One network read into the free part of the buffer: at least one byte. */
    method Fill()
      requires Valid() && |buffer| < size && stream != []
      modifies this
      ensures Valid() && Unread() == old(Unread()) && |stream| < |old(stream)|
    {
      var room := size - |buffer|;
      var n := if |stream| < room then |stream| else room;
      if arrivals != [] {
        if 0 < arrivals[0] < n { n := arrivals[0]; }
        arrivals := arrivals[1..];
      }
      buffer, stream := buffer + stream[..n], stream[n..];
    }

    /** Reads up to a newline, or to the end of the buffer or of the stream. */
    method ReadSlice() returns (bytes: Bytes, kind: Chunk)
      requires Valid()
      modifies this
      ensures Valid() && old(Unread()) == bytes + Unread()
      ensures kind == Line ==> bytes != [] && FirstNewline(bytes) == |bytes| - 1
      ensures kind != Line ==> NEWLINE !in bytes
      ensures kind == BufferFull ==> bytes != []
      ensures kind == Ended ==> Unread() == []
    {
      while true
        invariant Valid() && Unread() == old(Unread())
        decreases |stream|
      {
        var n := FirstNewline(buffer);
        if n < |buffer| {
          bytes, buffer := buffer[..n + 1], buffer[n + 1..];
          NewlineAt(bytes, n);
          return bytes, Line;
        }
        if |buffer| < size && stream == [] {
          bytes, buffer := buffer, [];
          return bytes, Ended;
        }
        if |buffer| >= size {
          bytes, buffer := buffer, [];
          return bytes, BufferFull;
        }
        Fill();
      }
    }

    /** Reads one frame. The result depends on the unread bytes alone, not on the buffer size or on how the bytes arrived. */
    method ReadFrame(max: nat) returns (frame: Result<Bytes, FrameError>)
      requires Valid()
      modifies this
      ensures Valid()
      ensures frame == NextFrame(old(Unread()), max)
      ensures frame.Ok? ==> old(Unread()) == frame.value + Unread()
    {
      hide NextFrame, FirstNewline, Unread;
      var line: Bytes := [];
      while true
        invariant Valid() && old(Unread()) == line + Unread()
        invariant NEWLINE !in line && |line| <= max
        decreases max - |line|
      {
        var chunk, kind := ReadSlice();
        ChunkDecides(line, chunk, kind, Unread(), max);
        assert old(Unread()) == line + chunk + Unread();
        line := line + chunk;
        if |line| > max { return Err(TooLarge); }
        if kind == Line { return Ok(line); }
        if kind == Ended { return Err(EndOfStream); }
      }
    }
  }

  // ----- Streams of frames -----

  /** A payload on its own line. */
  function Framed(payload: Bytes): Bytes { payload + [NEWLINE] }

  predicate Sendable(payload: Bytes, max: nat) { NEWLINE !in payload && |payload| + 1 <= max }

  function Concatenated(payloads: seq<Bytes>): Bytes {
    if payloads == [] then [] else Framed(payloads[0]) + Concatenated(payloads[1..])
  }

  lemma HeadFrame(payload: Bytes, rest: Bytes, max: nat)
    requires Sendable(payload, max)
    ensures NextFrame(Framed(payload) + rest, max) == Ok(Framed(payload))
  {
    var unread := Framed(payload) + rest;
    assert unread[|payload|] == NEWLINE && forall i | 0 <= i < |payload| :: unread[i] == payload[i];
    NewlineAt(unread, |payload|);
    assert unread[..|payload| + 1] == Framed(payload);
  }

  /**
   Reading frame after frame from any reader yields exactly the frames that were written, in order, and then the end of the
   stream, for every buffer size and every way the bytes arrive.
   */
  method ReadAll(r: Reader, max: nat, ghost payloads: seq<Bytes>) returns (frames: seq<Bytes>)
    requires r.Valid() && r.Unread() == Concatenated(payloads)
    requires forall p | p in payloads :: Sendable(p, max)
    modifies r
    ensures r.Valid() && |frames| == |payloads| && forall i | 0 <= i < |frames| :: frames[i] == Framed(payloads[i])
  {
    frames := [];
    while true
      invariant r.Valid() && |frames| <= |payloads| && r.Unread() == Concatenated(payloads[|frames|..])
      invariant forall i | 0 <= i < |frames| :: frames[i] == Framed(payloads[i])
      decreases |payloads| - |frames|
    {
      ghost var left := payloads[|frames|..];
      if left != [] { HeadFrame(left[0], Concatenated(left[1..]), max); }
      var frame := r.ReadFrame(max);
      if frame.Err? { return; }
      HeadLeaves(left, frame.value, r.Unread());
      assert left[1..] == payloads[|frames| + 1..];
      frames := frames + [frame.value];
    }
  }

  lemma HeadLeaves(left: seq<Bytes>, frame: Bytes, rest: Bytes)
    requires Concatenated(left) == frame + rest && (left != [] ==> frame == Framed(left[0])) && (left == [] ==> frame != [])
    ensures left != [] && rest == Concatenated(left[1..])
  {
    if left != [] {
      assert Concatenated(left)[|frame|..] == rest;
    }
  }

  // ----- What the two sides send -----

  /** A request of the client, refused if its frame would be too large. */
  function ClientFrame(raw: Bytes, max: nat): Option<Bytes> {
    if |Framed(raw)| > max then None else Some(Framed(raw))
  }

  /** A reply of the server: an oversized one is replaced by an error reply, and dropped if even that is too large. */
  function ServerFrame(raw: Bytes, oversize: Bytes, max: nat): Option<Bytes> {
    var chosen := if |raw| + 1 > max then oversize else raw;
    if |chosen| + 1 > max then None else Some(Framed(chosen))
  }

  /** Whatever either side sends, the other accepts as one frame, whatever follows it; and no smaller limit would do. */
  lemma SentIsAccepted(raw: Bytes, oversize: Bytes, max: nat, rest: Bytes)
    requires NEWLINE !in raw && NEWLINE !in oversize
    ensures ClientFrame(raw, max).Some? <==> NextFrame(Framed(raw) + rest, max) == Ok(Framed(raw))
    ensures ServerFrame(raw, oversize, max).Some? ==>
              NextFrame(ServerFrame(raw, oversize, max).value + rest, max) == Ok(ServerFrame(raw, oversize, max).value)
    ensures ServerFrame(raw, oversize, max) ==
      (if NextFrame(Framed(raw) + rest, max).Ok? then Some(Framed(raw))
       else if NextFrame(Framed(oversize) + rest, max).Ok? then Some(Framed(oversize)) else None)
  {
    if |raw| + 1 <= max { HeadFrame(raw, rest, max); } else { OversizeIsRefused(raw, rest, max); }
    if |oversize| + 1 <= max { HeadFrame(oversize, rest, max); } else { OversizeIsRefused(oversize, rest, max); }
  }

  lemma OversizeIsRefused(raw: Bytes, rest: Bytes, max: nat)
    requires NEWLINE !in raw && |raw| + 1 > max
    ensures NextFrame(Framed(raw) + rest, max) == Err(TooLarge)
  {
    var unread := Framed(raw) + rest;
    assert unread[|raw|] == NEWLINE && forall i | 0 <= i < |raw| :: unread[i] == raw[i];
    NewlineAt(unread, |raw|);
  }
}

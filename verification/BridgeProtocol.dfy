/** The wire format between the engine and the bridge (src/xauusd/execution/bridge_protocol.py):
    a four-byte big-endian length, then that many bytes.  A socket hands over its bytes in chunks
    of any size and may fail at any read. */
module BridgeProtocol {
  import opened Domain

  type byte = n: nat | n < 256
  type bytes = seq<byte>

  const MAX_FRAME: nat := 32 * 1024 * 1024
  const MAX_U32: nat := 0x1_0000_0000

  // ---------------------------------------------------------------- the format

  function Pack(n: nat): (b: bytes)
    requires n < MAX_U32
    ensures |b| == 4
  {
    [n / 0x100_0000, n / 0x1_0000 % 256, n / 0x100 % 256, n % 256]
  }

  function Unpack(b: bytes): (n: nat)
    requires |b| == 4
    ensures n < MAX_U32
  {
    b[0] as nat * 0x100_0000 + b[1] as nat * 0x1_0000 + b[2] as nat * 0x100 + b[3] as nat
  }

  lemma PackRoundTrip(n: nat)
    requires n < MAX_U32
    ensures Unpack(Pack(n)) == n
  {
    assert n == n / 0x100 * 0x100 + n % 256;
    assert n / 0x100 == n / 0x1_0000 * 0x100 + n / 0x100 % 256;
    assert n / 0x1_0000 == n / 0x100_0000 * 0x100 + n / 0x1_0000 % 256;
  }

  // The first byte in which they differ is smaller in `a`.
  predicate FirstByteLess(a: bytes, b: bytes)
    requires |a| == |b|
  {
    exists i :: 0 <= i < |a| && a[i] < b[i] && a[..i] == b[..i]
  }

  /** The most significant byte comes first: headers compared byte by byte compare as lengths. */
  lemma HeadersCompareAsLengths(m: nat, n: nat)
    requires m < MAX_U32 && n < MAX_U32
    ensures m < n <==> FirstByteLess(Pack(m), Pack(n))
  {
    var a, b := Pack(m), Pack(n);
    PackRoundTrip(m);
    PackRoundTrip(n);
    if m < n {
      FirstDifference(a, b);
    } else if i :| 0 <= i < |a| && a[i] < b[i] && a[..i] == b[..i] {
      assert forall j :: 0 <= j < i ==> a[j] == a[..i][j] == b[j];
    }
  }

  lemma FirstDifference(a: bytes, b: bytes)
    requires |a| == |b| == 4 && Unpack(a) < Unpack(b)
    ensures FirstByteLess(a, b)
  {
    var i: nat := if a[0] != b[0] then 0 else if a[1] != b[1] then 1 else if a[2] != b[2] then 2 else 3;
    assert a[i] < b[i] && a[..i] == b[..i];
  }

  // None is the error for a payload over the limit.
  function Encode(payload: bytes): Option<bytes> {
    if |payload| > MAX_FRAME then None else Some(Pack(|payload|) + payload)
  }

  datatype Read = Frame(payload: bytes, rest: bytes) | TooLarge | Incomplete

  // What one read takes off a stream that is given whole.
  function ReadOne(stream: bytes): Read {
    if |stream| < 4 then Incomplete
    else
      var n := Unpack(stream[..4]);
      if n > MAX_FRAME then TooLarge
      else if |stream| < 4 + n then Incomplete
      else Frame(stream[4..4 + n], stream[4 + n..])
  }

  ghost predicate Sendable(payloads: seq<bytes>) {
    forall i :: 0 <= i < |payloads| ==> |payloads[i]| <= MAX_FRAME
  }

  // The frames of these payloads, one after the other.
  ghost function Stream(payloads: seq<bytes>): bytes
    requires Sendable(payloads)
  {
    if payloads == [] then [] else Encode(payloads[0]).value + Stream(payloads[1..])
  }

  // One encoded frame reads back as its payload, whatever follows it.
  lemma ReadsBack(payload: bytes, rest: bytes)
    requires |payload| <= MAX_FRAME
    ensures ReadOne(Encode(payload).value + rest) == Frame(payload, rest)
  {
    var header := Pack(|payload|);
    var stream := header + payload + rest;
    PackRoundTrip(|payload|);
    assert Encode(payload).value + rest == stream;
    assert stream[..4] == header;
    assert stream[4..4 + |payload|] == payload && stream[4 + |payload|..] == rest;
  }

  // A frame cut short anywhere is never read.
  lemma CutFrameIsIncomplete(payload: bytes, n: nat)
    requires |payload| <= MAX_FRAME && n < |Encode(payload).value|
    ensures ReadOne(Encode(payload).value[..n]) == Incomplete
  {
    var frame := Encode(payload).value;
    PackRoundTrip(|payload|);
    if n >= 4 {
      assert frame[..n][..4] == Pack(|payload|);
    }
  }

  // ---------------------------------------------------------------- reading from a socket

  datatype Received = Chunk(data: bytes) | Closed | Broken

  /** One connection as the reader sees it.  `inbound` are the bytes the peer sends that have not
      been read yet; when they arrive, and in what pieces, is open. */
  class Socket {
    var inbound: bytes
    ghost var failures: nat // reads that found the connection closed or broken

    constructor ()
      ensures inbound == [] && failures == 0
    {
      inbound, failures := [], 0;
    }

    // At most n bytes; an empty chunk means closed.
    method Recv(n: nat) returns (r: Received)
      requires n > 0
      modifies this
      ensures r.Chunk? ==> 0 < |r.data| <= n && r.data + inbound == old(inbound)
      ensures !r.Chunk? ==> inbound == old(inbound)
      ensures failures == if r.Chunk? then old(failures) else old(failures) + 1
    {
      var arrived: nat, closed: bool := *, *;
      if 0 < arrived <= n && arrived <= |inbound| {
        r := Chunk(inbound[..arrived]);
        inbound := inbound[arrived..];
      } else {
        r := if closed then Closed else Broken;
        failures := failures + 1;
      }
    }

    // Exactly n bytes, or None for a closed or broken connection; then bytes may be lost.
    method RecvExact(n: nat) returns (data: Option<bytes>)
      modifies this
      ensures data.Some? ==> |data.value| == n && data.value + inbound == old(inbound)
      ensures data == None ==> exists lost :: |lost| < n && lost + inbound == old(inbound)
      ensures failures == if data.Some? then old(failures) else old(failures) + 1
    {
      var buf: bytes := [];
      while |buf| < n
        invariant |buf| <= n && buf + inbound == old(inbound) && failures == old(failures)
        decreases n - |buf|
      {
        var r := Recv(n - |buf|);
        if !r.Chunk? {
          return None;
        }
        assert buf + (r.data + inbound) == (buf + r.data) + inbound;
        buf := buf + r.data;
      }
      data := Some(buf);
    }

    /** One frame.  None is a connection error; TooLarge is the framing error.  A frame that comes
        back is the next one of the stream, however it was chunked. */
    method ReadFrame() returns (r: Option<Read>)
      modifies this
      ensures r.Some? && r.value.Frame? ==> ReadOne(old(inbound)) == r.value && inbound == r.value.rest
      ensures r == Some(TooLarge) ==> ReadOne(old(inbound)) == TooLarge
      ensures r != Some(Incomplete)
      ensures |inbound| <= |old(inbound)|
      ensures r == None && inbound == [] ==> ReadOne(old(inbound)) == Incomplete || ReadOne(old(inbound)) == TooLarge
      ensures failures == if r.Some? then old(failures) else old(failures) + 1
    {
      var header := RecvExact(4);
      if header == None {
        return None;
      }
      ghost var afterHeader := inbound;
      assert old(inbound)[..4] == header.value && old(inbound)[4..] == afterHeader;
      var n := Unpack(header.value);
      if n > MAX_FRAME {
        return Some(TooLarge);
      }
      var payload := RecvExact(n);
      if payload == None {
        return None;
      }
      assert afterHeader[..n] == payload.value && afterHeader[n..] == inbound;
      r := Some(Frame(payload.value, inbound));
    }

    /** Reading frames in a loop, as the server does, until the connection ends: what was read is
        a prefix of what was sent, all of it exactly when no byte is left unread, and nothing sent
        through `Encode` is ever too large. */
    method ReadFrames(ghost sent: seq<bytes>) returns (payloads: seq<bytes>, framingError: bool)
      requires Sendable(sent) && inbound == Stream(sent)
      modifies this
      ensures payloads <= sent && !framingError && failures == old(failures) + 1
      ensures payloads == sent <==> inbound == []
    {
      payloads := [];
      ghost var left := sent;
      while true
        invariant Sendable(left) && payloads + left == sent && inbound == Stream(left) && failures == old(failures)
        decreases |left|
      {
        StreamIsRead(left);
        var r := ReadFrame();
        if r == None {
          return payloads, false;
        }
        if r.value.TooLarge? {
          return payloads, true;
        }
        payloads := payloads + [r.value.payload];
        left := left[1..];
      }
    }
  }

  // The next frame of a stream of frames is the first payload, and the others stay.
  lemma StreamIsRead(payloads: seq<bytes>)
    requires Sendable(payloads)
    ensures payloads == [] ==> ReadOne(Stream(payloads)) == Incomplete
    ensures payloads != [] ==> Sendable(payloads[1..])
                               && ReadOne(Stream(payloads)) == Frame(payloads[0], Stream(payloads[1..]))
  {
    if payloads != [] {
      ReadsBack(payloads[0], Stream(payloads[1..]));
    }
  }

  // Reading a stream of frames with the specification gives the same list back.
  function ReadAll(stream: bytes): seq<bytes>
    decreases |stream|
  {
    match ReadOne(stream)
    case Frame(payload, rest) => [payload] + ReadAll(rest)
    case _ => []
  }

  /** Any list of payloads survives the trip: encoded, joined and read back it is the same list. */
  lemma {:induction false} FramingRoundTrip(payloads: seq<bytes>)
    requires Sendable(payloads)
    ensures ReadAll(Stream(payloads)) == payloads
  {
    StreamIsRead(payloads);
    if payloads != [] {
      FramingRoundTrip(payloads[1..]);
    }
  }

  // Two different lists never share a stream.
  lemma StreamsAreInjective(a: seq<bytes>, b: seq<bytes>)
    requires Sendable(a) && Sendable(b) && Stream(a) == Stream(b)
    ensures a == b
  {
    FramingRoundTrip(a);
    FramingRoundTrip(b);
  }
}

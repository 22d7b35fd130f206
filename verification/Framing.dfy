/**
 * Length-prefixed frames: the server's `Response` buffer (Response.cpp) and the client's
 * `_send_data`, `_recv_data` and `_read_n_bytes` (examples/python/sqlite.py).
 */
module Framing {
  import opened Wrappers
  import opened Arithmetic

  type byte = x: int | 0 <= x < 256

  const HEADER_SIZE: nat := 4
  const UINT32_RANGE: nat := 0x1_0000_0000

  // ----- Little-endian numbers -----

  /** The k low-order bytes of n, least significant first. */
  function LittleEndian(n: nat, k: nat): (bs: seq<byte>)
    ensures |bs| == k
  {
    if k == 0 then [] else [n % 256] + LittleEndian(n / 256, k - 1)
  }

  /** The number a client reads from such bytes (struct.unpack("<I", ...) for four of them). */
  function FromLittleEndian(bs: seq<byte>): nat {
    if bs == [] then 0 else bs[0] + 256 * FromLittleEndian(bs[1..])
  }

  function Pow256(k: nat): (p: nat)
    ensures p > 0
  {
    if k == 0 then 1 else 256 * Pow256(k - 1)
  }

  lemma DivPow256(n: nat, i: nat)
    ensures n / Pow256(i + 1) == (n / 256) / Pow256(i)
  {
    DivByProduct(n, Pow256(i));
  }

  /** Byte i of the encoding is the number shifted right by 8*i bits and masked with 0xFF. */
  lemma {:induction false} LittleEndianByte(n: nat, k: nat, i: nat)
    requires i < k
    ensures LittleEndian(n, k)[i] == (n / Pow256(i)) % 256
  {
    if i > 0 {
      LittleEndianByte(n / 256, k - 1, i - 1);
      DivPow256(n, i - 1);
    }
  }

  /** Reassembling k bytes yields the number modulo 256^k: the identity on k-byte numbers. */
  lemma {:induction false} LittleEndianRoundTrip(n: nat, k: nat)
    ensures n < Pow256(k) ==> FromLittleEndian(LittleEndian(n, k)) == n
    ensures FromLittleEndian(LittleEndian(n, k)) < Pow256(k)
  {
    if k > 0 {
      LittleEndianRoundTrip(n / 256, k - 1);
      assert LittleEndian(n, k)[1..] == LittleEndian(n / 256, k - 1);
    }
  }

  /** The bytes are the only ones of their number that stand for what they are read as. */
  lemma {:induction false} LittleEndianOfRead(bs: seq<byte>)
    ensures LittleEndian(FromLittleEndian(bs), |bs|) == bs
    ensures FromLittleEndian(bs) < Pow256(|bs|)
  {
    if bs != [] {
      LittleEndianOfRead(bs[1..]);
      DivisionIsUnique(FromLittleEndian(bs), 256, FromLittleEndian(bs[1..]), bs[0]);
      assert bs == [bs[0]] + bs[1..];
    }
  }

  // ----- Frames -----

  /** The 4-byte header; the cast to uint32_t truncates a longer length. */
  function Header(length: nat): (h: seq<byte>)
    ensures |h| == HEADER_SIZE
  {
    LittleEndian(length % UINT32_RANGE, HEADER_SIZE)
  }

  function Frame(body: seq<byte>): seq<byte> {
    Header(|body|) + body
  }

  /** The bytes of a list of messages sent one after another. */
  function Frames(bodies: seq<seq<byte>>): seq<byte> {
    if bodies == [] then [] else Frame(bodies[0]) + Frames(bodies[1..])
  }

  lemma HeaderRoundTrip(length: nat)
    ensures FromLittleEndian(Header(length)) == length % UINT32_RANGE
  {
    LittleEndianRoundTrip(length % UINT32_RANGE, HEADER_SIZE);
    assert Pow256(4) == 256 * (256 * (256 * (256 * 1)));
  }

  /** A frame is four bytes of the length, the least significant first, and the body. */
  lemma FrameBytes(body: seq<byte>)
    ensures var n := |body|;
            Frame(body) == [n % 0x100, n / 0x100 % 0x100, n / 0x1_0000 % 0x100, n / 0x100_0000 % 0x100] + body
  {
    var n := |body|;
    var m := n % UINT32_RANGE;
    LittleEndianByte(m, 4, 0);
    LittleEndianByte(m, 4, 1);
    LittleEndianByte(m, 4, 2);
    LittleEndianByte(m, 4, 3);
    FourPowers();
    hide LittleEndian, Pow256;
    LowDigits(n, 0x1, 0x100_0000);
    LowDigits(n, 0x100, 0x1_0000);
    LowDigits(n, 0x1_0000, 0x100);
    LowDigits(n, 0x100_0000, 0x1);
  }

  lemma FourPowers()
    ensures Pow256(0) == 1 && Pow256(1) == 0x100 && Pow256(2) == 0x1_0000 && Pow256(3) == 0x100_0000
  {
    assert Pow256(3) == 256 * (256 * (256 * 1));
  }

  /** Cutting a number to four bytes leaves each of them. */
  lemma LowDigits(n: nat, p: nat, j: nat)
    requires p > 0 && p * (j * 0x100) == UINT32_RANGE
    ensures n % UINT32_RANGE / p % 0x100 == n / p % 0x100
  {
    var q, m := n / UINT32_RANGE, n % UINT32_RANGE;
    Regrouped(q, p, j);
    assert n == q * UINT32_RANGE + m;
    assert m == m / p * p + m % p;
    assert (q * j * 0x100 + m / p) * p == q * j * 0x100 * p + m / p * p;
    DivisionIsUnique(n, p, q * j * 0x100 + m / p, m % p);
    var low := m / p;
    assert low == low / 0x100 * 0x100 + low % 0x100;
    DivisionIsUnique(q * j * 0x100 + low, 0x100, q * j + low / 0x100, low % 0x100);
  }

  lemma Regrouped(q: nat, p: nat, j: nat)
    ensures q * j * 0x100 * p == q * (p * (j * 0x100))
  {
  }

  /** A header and as many bytes as it announces are the frame of these bytes. */
  lemma FrameOfRead(frame: seq<byte>)
    requires |frame| >= HEADER_SIZE && |frame| == HEADER_SIZE + FromLittleEndian(frame[..HEADER_SIZE])
    ensures frame == Frame(frame[HEADER_SIZE..])
  {
    LittleEndianOfRead(frame[..HEADER_SIZE]);
    assert Pow256(4) == UINT32_RANGE by {
      assert Pow256(4) == 256 * (256 * (256 * (256 * 1)));
    }
    hide LittleEndian, FromLittleEndian, Pow256;
    assert frame == frame[..HEADER_SIZE] + frame[HEADER_SIZE..];
  }

  lemma {:induction false} FramesAppend(bodies: seq<seq<byte>>, body: seq<byte>)
    ensures Frames(bodies + [body]) == Frames(bodies) + Frame(body)
  {
    if bodies == [] {
      assert [body][1..] == [];
    } else {
      FramesAppend(bodies[1..], body);
      assert (bodies + [body])[1..] == bodies[1..] + [body];
    }
  }

  lemma {:induction false} FramesConcat(a: seq<seq<byte>>, b: seq<seq<byte>>)
    ensures Frames(a + b) == Frames(a) + Frames(b)
  {
    if a == [] {
      assert a + b == b;
    } else {
      FramesConcat(a[1..], b);
      FramesFirst(a);
      FramesFirst(a + b);
      hide Frames, Frame;
      assert (a + b)[1..] == a[1..] + b;
      BytesAssociate(Frame(a[0]), Frames(a[1..]), Frames(b));
    }
  }

  lemma FramesFirst(bodies: seq<seq<byte>>)
    requires bodies != []
    ensures Frames(bodies) == Frame(bodies[0]) + Frames(bodies[1..])
  {
  }

  lemma BytesAssociate(a: seq<byte>, b: seq<byte>, c: seq<byte>)
    ensures a + (b + c) == a + b + c
  {
  }

  /** The response buffer (Response.cpp). */
  class Response {
    const data: seq<byte>

    constructor (body: seq<byte>)
      ensures data == Frame(body)
    {
      var size := |body| % UINT32_RANGE;
      var d: seq<byte> := [];
      var i := 0;
      while i < HEADER_SIZE
        invariant 0 <= i <= HEADER_SIZE
        invariant d == LittleEndian(size, HEADER_SIZE)[..i]
      {
        LittleEndianByte(size, HEADER_SIZE, i);
        d := d + [(size / Pow256(i)) % 256];
        i := i + 1;
      }
      assert d == Header(|body|);
      data := d + body;
    }

    method DataRepr() returns (text: seq<byte>)
      ensures |data| < HEADER_SIZE ==> text == []
      ensures forall body :: data == Frame(body) ==> text == body
    {
      if |data| < HEADER_SIZE {
        return [];
      }
      return data[HEADER_SIZE..];
    }
  }

  // ----- The client's receiving side -----

  function Flatten(chunks: seq<seq<byte>>): seq<byte> {
    if chunks == [] then [] else chunks[0] + Flatten(chunks[1..])
  }

  /**
   * A client socket. `chunks` are the pieces in which the peer's bytes will be delivered,
   * after which the connection is closed; `sent` is everything written to the peer.
   */
  class Connection {
    var chunks: seq<seq<byte>>
    var sent: seq<byte>

    constructor (chunks: seq<seq<byte>>)
      requires [] !in chunks
      ensures Valid() && this.chunks == chunks && sent == []
    {
      this.chunks, sent := chunks, [];
    }

    ghost predicate Valid()
      reads this
    {
      [] !in chunks
    }

    ghost function Pending(): seq<byte>
      reads this
    {
      Flatten(chunks)
    }

    /** recv(n): at most n bytes of the next piece; nothing only when n is 0 or the peer closed. */
    method Recv(n: nat) returns (chunk: seq<byte>)
      requires Valid()
      modifies this`chunks
      ensures Valid()
      ensures |chunk| <= n && old(Pending()) == chunk + Pending()
      ensures chunk == [] ==> n == 0 || Pending() == []
    {
      if chunks == [] || n == 0 {
        return [];
      }
      var first := chunks[0];
      if |first| <= n {
        chunk := first;
        chunks := chunks[1..];
      } else {
        chunk := first[..n];
        chunks := [first[n..]] + chunks[1..];
        assert chunks[1..] == old(chunks)[1..];
        assert first == first[..n] + first[n..];
      }
    }

    method ReadNBytes(n: nat) returns (data: Option<seq<byte>>)
      requires Valid()
      modifies this`chunks
      ensures Valid()
      ensures (data, Pending()) == TakeExactly(old(Pending()), n)
      ensures if |old(Pending())| < n then data.None? && Pending() == []
              else data == Some(old(Pending())[..n]) && Pending() == old(Pending())[n..]
    {
      var read: seq<byte> := [];
      while |read| < n
        invariant Valid()
        invariant |read| <= n && old(Pending()) == read + Pending()
        decreases n - |read|
      {
        var chunk := Recv(n - |read|);
        if chunk == [] {
          return None;
        }
        read := read + chunk;
      }
      assert read == old(Pending())[..n] && Pending() == old(Pending())[n..];
      return Some(read);
    }

    method RecvData() returns (payload: Option<seq<byte>>)
      requires Valid()
      modifies this`chunks
      ensures Valid()
      ensures (payload, Pending()) == ReceiveOne(old(Pending()))
    {
      var header := ReadNBytes(HEADER_SIZE);
      if header.None? || header.value == [] {
        return None;
      }
      var size := FromLittleEndian(header.value);
      payload := ReadNBytes(size);
      if payload.Some? && payload.value == [] {
        payload := None;
      }
    }

    /** Sends the frame of `data`; struct.pack refuses a length outside uint32. */
    method SendData(data: seq<byte>) returns (ok: bool)
      modifies this`sent
      ensures ok == (|data| < UINT32_RANGE)
      ensures sent == if ok then old(sent) + Frame(data) else old(sent)
    {
      if |data| >= UINT32_RANGE {
        return false;
      }
      var header := LittleEndian(|data|, HEADER_SIZE);
      sent := sent + (header + data);
      return true;
    }
  }

  /** `_read_n_bytes` on a byte stream that ends with the connection. */
  function TakeExactly(stream: seq<byte>, n: nat): (Option<seq<byte>>, seq<byte>) {
    if |stream| < n then (None, []) else (Some(stream[..n]), stream[n..])
  }

  /** `_recv_data` on a byte stream: an empty payload is reported like a closed connection. */
  function ReceiveOne(stream: seq<byte>): (Option<seq<byte>>, seq<byte>) {
    var (header, rest) := TakeExactly(stream, HEADER_SIZE);
    if header.None? then (None, rest) else
    var (payload, rest') := TakeExactly(rest, FromLittleEndian(header.value));
    (if payload == Some([]) then None else payload, rest')
  }

  /** n calls of `_recv_data` in a row. */
  function ReceiveMany(stream: seq<byte>, n: nat): (seq<Option<seq<byte>>>, seq<byte>)
    decreases n
  {
    if n == 0 then ([], stream) else
    var (payload, rest) := ReceiveOne(stream);
    var (payloads, rest') := ReceiveMany(rest, n - 1);
    ([payload] + payloads, rest')
  }

  /** What a receiver is handed for a message. */
  function Delivered(body: seq<byte>): Option<seq<byte>> {
    if body == [] then None else Some(body)
  }

  function Deliveries(bodies: seq<seq<byte>>): seq<Option<seq<byte>>> {
    seq(|bodies|, i requires 0 <= i < |bodies| => Delivered(bodies[i]))
  }

  lemma HeaderIsPrefix(body: seq<byte>, tail: seq<byte>)
    ensures |Frame(body) + tail| >= HEADER_SIZE
    ensures (Frame(body) + tail)[..HEADER_SIZE] == Header(|body|)
    ensures (Frame(body) + tail)[HEADER_SIZE..] == body + tail
  {
  }

  /** One frame is received intact, and nothing behind it is touched, exactly when its length fits. */
  lemma FrameRoundTrip(body: seq<byte>, tail: seq<byte>)
    ensures ReceiveOne(Frame(body) + tail) == (Delivered(body), tail) <==> |body| < UINT32_RANGE
  {
    HeaderIsPrefix(body, tail);
    HeaderRoundTrip(|body|);
    var size := |body| % UINT32_RANGE;
    assert (body + tail)[..size] == body[..size];
    if |body| < UINT32_RANGE {
      assert (body + tail)[size..] == tail;
    } else {
      assert |ReceiveOne(Frame(body) + tail).1| == |body| + |tail| - size;
    }
  }

  /** A frame that is cut short, in its header or in its body, is received as None, and nothing is left. */
  lemma CutFrameIsNone(body: seq<byte>, k: nat)
    requires |body| < UINT32_RANGE && k < |Frame(body)|
    ensures ReceiveOne(Frame(body)[..k]) == (None, [])
  {
    HeaderIsPrefix(body, []);
    HeaderRoundTrip(|body|);
    hide LittleEndian, FromLittleEndian, Header;
    var cut := Frame(body)[..k];
    assert Frame(body) + [] == Frame(body);
    if k >= HEADER_SIZE {
      assert cut[..HEADER_SIZE] == Frame(body)[..HEADER_SIZE];
    }
  }

  /** The receiver loop recovers exactly the messages, in order, and stops behind the last frame. */
  lemma {:induction false} FramesRoundTrip(bodies: seq<seq<byte>>, tail: seq<byte>)
    requires forall body :: body in bodies ==> |body| < UINT32_RANGE
    ensures ReceiveMany(Frames(bodies) + tail, |bodies|)
         == (Deliveries(bodies), tail)
  {
    if bodies == [] {
      assert Frames(bodies) + tail == tail;
    } else {
      var rest := Frames(bodies[1..]) + tail;
      FramesFirst(bodies);
      BytesAssociate(Frame(bodies[0]), Frames(bodies[1..]), tail);
      FrameRoundTrip(bodies[0], rest);
      FramesRoundTrip(bodies[1..], tail);
      assert Deliveries(bodies) == [Delivered(bodies[0])] + Deliveries(bodies[1..]);
      hide ReceiveOne, Frame, Frames;
    }
  }

  /**
   * The same on a real connection: however the frames are cut into chunks, |bodies| calls
   * of RecvData return the messages and leave the bytes behind the last frame unread.
   */
  method ReceiveAll(conn: Connection, n: nat) returns (payloads: seq<Option<seq<byte>>>)
    requires conn.Valid()
    modifies conn`chunks
    ensures conn.Valid()
    ensures (payloads, conn.Pending()) == ReceiveMany(old(conn.Pending()), n)
    ensures forall bodies: seq<seq<byte>>, tail: seq<byte> ::
              |bodies| == n && (forall body :: body in bodies ==> |body| < UINT32_RANGE)
              && old(conn.Pending()) == Frames(bodies) + tail
              ==> conn.Pending() == tail && |payloads| == n
                  && forall i :: 0 <= i < n ==> payloads[i] == Delivered(bodies[i])
  {
    payloads := [];
    var i := 0;
    assert [] + ReceiveMany(conn.Pending(), n).0 == ReceiveMany(conn.Pending(), n).0;
    while i < n
      invariant 0 <= i <= n && conn.Valid()
      invariant var rest := ReceiveMany(conn.Pending(), n - i);
                (payloads + rest.0, rest.1) == ReceiveMany(old(conn.Pending()), n)
    {
      ghost var rest := ReceiveMany(conn.Pending(), n - i);
      var payload := conn.RecvData();
      assert payloads + rest.0 == payloads + [payload] + ReceiveMany(conn.Pending(), n - i - 1).0;
      payloads := payloads + [payload];
      i := i + 1;
    }
    assert payloads + [] == payloads;
    forall bodies: seq<seq<byte>>, tail: seq<byte> |
      |bodies| == n && (forall body :: body in bodies ==> |body| < UINT32_RANGE)
      && old(conn.Pending()) == Frames(bodies) + tail
      ensures conn.Pending() == tail && |payloads| == n
              && forall i :: 0 <= i < n ==> payloads[i] == Delivered(bodies[i])
    {
      FramesRoundTrip(bodies, tail);
    }
  }
}

/**
 * The multiplexed stream a container attaches to: a sequence of frames, each an
 * 8-byte big-endian header (stream type in the top byte, payload length in the
 * low 56 bits) followed by the payload.
 */
module Frames {

  import opened CommandLogs

  /** Size of a frame header in bytes. */
  const HeaderSize: nat := 8

  /** 2^56: `value >> 56` is `value / TypeUnit`, `value & 0xffffffffffffff` is `value % TypeUnit`. */
  const TypeUnit: nat := 0x100000000000000

  function Pow256(n: nat): (r: nat)
    ensures r > 0
  {
    if n == 0 then 1 else 256 * Pow256(n - 1)
  }

  /** The unsigned big-endian value of a byte string (`struct.unpack('>Q', ...)` for 8 bytes). */
  function BigEndian(s: seq<byte>): nat
  {
    if |s| == 0 then 0 else BigEndian(s[..|s| - 1]) * 256 + s[|s| - 1]
  }

  /** The `n`-byte big-endian spelling of `v` (the low `n` bytes). */
  function BigEndianBytes(v: nat, n: nat): (r: seq<byte>)
    ensures |r| == n
  {
    if n == 0 then [] else BigEndianBytes(v / 256, n - 1) + [v % 256]
  }

  lemma {:induction false} BigEndianBound(s: seq<byte>)
    ensures BigEndian(s) < Pow256(|s|)
  {
    if |s| > 0 {
      BigEndianBound(s[..|s| - 1]);
      var p := Pow256(|s| - 1);
      var x := BigEndian(s[..|s| - 1]);
      assert x <= p - 1;
      assert x * 256 <= (p - 1) * 256;
    }
  }

  /** Splitting off the leading byte: it weighs 256^(number of bytes after it). */
  lemma {:induction false} BigEndianCons(b: byte, rest: seq<byte>)
    ensures BigEndian([b] + rest) == b * Pow256(|rest|) + BigEndian(rest)
  {
    if |rest| == 0 {
      assert [b] + rest == [b];
      assert [b][..0] == [];
    } else {
      var s := [b] + rest;
      assert s[..|s| - 1] == [b] + rest[..|rest| - 1];
      BigEndianCons(b, rest[..|rest| - 1]);
      calc {
        BigEndian(s);
        BigEndian([b] + rest[..|rest| - 1]) * 256 + rest[|rest| - 1];
        (b * Pow256(|rest| - 1) + BigEndian(rest[..|rest| - 1])) * 256 + rest[|rest| - 1];
        b * (Pow256(|rest| - 1) * 256) + (BigEndian(rest[..|rest| - 1]) * 256 + rest[|rest| - 1]);
        b * Pow256(|rest|) + BigEndian(rest);
      }
    }
  }

  lemma {:induction false} BigEndianBytesRoundTrip(v: nat, n: nat)
    requires v < Pow256(n)
    ensures BigEndian(BigEndianBytes(v, n)) == v
  {
    if n > 0 {
      var s := BigEndianBytes(v, n);
      assert s[..n - 1] == BigEndianBytes(v / 256, n - 1);
      assert v / 256 < Pow256(n - 1);
      BigEndianBytesRoundTrip(v / 256, n - 1);
    }
  }

  lemma {:induction false} BigEndianRoundTrip(s: seq<byte>)
    ensures BigEndianBytes(BigEndian(s), |s|) == s
  {
    if |s| > 0 {
      var init := s[..|s| - 1];
      var v := BigEndian(s);
      assert v / 256 == BigEndian(init);
      assert v % 256 == s[|s| - 1];
      BigEndianRoundTrip(init);
    }
  }

  /** A decoded frame header. */
  datatype Header = Header(streamType: nat, length: nat)

  /**
   * Decodes a frame header the way `__unpack_container_stream` does: the stream
   * type is the top byte of the big-endian u64, the length its low 56 bits.
   */
  function DecodeHeader(h: seq<byte>): (r: Header)
    requires |h| == HeaderSize
    ensures r.streamType == h[0]
    ensures r.length == BigEndian(h[1..])
    ensures r.length < TypeUnit
  {
    var value := BigEndian(h);
    HeaderFields(h);
    Header(value / TypeUnit, value % TypeUnit)
  }

  lemma HeaderFields(h: seq<byte>)
    requires |h| == HeaderSize
    ensures BigEndian(h) / TypeUnit == h[0]
    ensures BigEndian(h) % TypeUnit == BigEndian(h[1..])
  {
    assert h == [h[0]] + h[1..];
    BigEndianCons(h[0], h[1..]);
    BigEndianBound(h[1..]);
    assert Pow256(7) == TypeUnit;
    DivModOf(h[0], BigEndian(h[1..]), TypeUnit);
  }

  lemma DivModOf(q: nat, r: nat, m: nat)
    requires r < m
    ensures (q * m + r) / m == q
    ensures (q * m + r) % m == r
  {
    var x := q * m + r;
    var a, b := x / m, x % m;
    assert x == a * m + b;
    if q > a {
      assert q * m == (q - a) * m + a * m;
      MulAtLeast(q - a, m);
    } else if q < a {
      assert a * m == (a - q) * m + q * m;
      MulAtLeast(a - q, m);
    }
  }

  lemma MulAtLeast(k: int, m: nat)
    requires k >= 1
    ensures k * m >= m
  {
    assert k * m == (k - 1) * m + m;
  }

  /** The header a sender writes for a payload of `length` bytes on stream `streamType`. */
  function EncodeHeader(streamType: byte, length: nat): (r: seq<byte>)
    requires length < TypeUnit
    ensures |r| == HeaderSize
  {
    BigEndianBytes(streamType * TypeUnit + length, HeaderSize)
  }

  /** Headers and (type, length) pairs correspond one to one. */
  lemma HeaderRoundTrip(streamType: byte, length: nat)
    requires length < TypeUnit
    ensures DecodeHeader(EncodeHeader(streamType, length)) == Header(streamType, length)
  {
    var v := streamType * TypeUnit + length;
    assert Pow256(8) == 256 * TypeUnit;
    assert v < Pow256(8);
    BigEndianBytesRoundTrip(v, HeaderSize);
    DivModOf(streamType, length, TypeUnit);
  }

  lemma HeaderRoundTripBytes(h: seq<byte>)
    requires |h| == HeaderSize
    ensures h[0] < 256 && DecodeHeader(h).length < TypeUnit
    ensures EncodeHeader(h[0], DecodeHeader(h).length) == h
  {
    HeaderFields(h);
    var v := BigEndian(h);
    assert h[0] * TypeUnit + BigEndian(h[1..]) == v by {
      assert v == (v / TypeUnit) * TypeUnit + v % TypeUnit;
    }
    BigEndianRoundTrip(h);
  }

  /** A piece of data as one socket read can deliver it; never empty (an empty read means end of stream). */
  type Chunk = s: seq<byte> | |s| > 0 witness [0]

  /** The bytes still to arrive on a socket, in order. */
  function Flatten(sock: seq<Chunk>): seq<byte>
  {
    if |sock| == 0 then [] else sock[0] + Flatten(sock[1..])
  }

  /**
   * `c_socket.read(n)`: up to `n` bytes from the front of the socket, and the
   * socket that is left; the empty string exactly at end of stream.
   */
  function Read(sock: seq<Chunk>, n: nat): (r: (seq<byte>, seq<Chunk>))
    requires n > 0
    ensures |r.0| == 0 <==> |sock| == 0
    ensures |r.0| <= n
    ensures Flatten(sock) == r.0 + Flatten(r.1)
  {
    if |sock| == 0 then ([], [])
    else if |sock[0]| <= n then (sock[0], sock[1..])
    else
      assert sock[0] == sock[0][..n] + sock[0][n..];
      (sock[0][..n], [sock[0][n..]] + sock[1..])
  }

  /** What one call of `__unpack_container_stream` yields. */
  datatype Unpacked =
    | Frame(streamType: nat, payload: seq<byte>)
      /** The stream ended inside a payload: `__unpack_container_stream` raises 'Failed to read all data from the container'. */
    | Truncated

  /**
   * The frame at the front of `bytes` and the number of bytes it takes. A stream
   * that ends before a whole header yields `Frame(0, [])`, as `__unpack_container_stream`'s
   * `return 0, bytes([])` does.
   */
  function DecodeFrame(bytes: seq<byte>): (r: (Unpacked, nat))
    ensures r.1 <= |bytes|
    ensures |bytes| < HeaderSize ==> r.0 == Frame(0, [])
    ensures r.0.Frame? && |bytes| >= HeaderSize ==> r.1 == HeaderSize + |r.0.payload|
    ensures r.0.Frame? && |bytes| >= HeaderSize ==>
      && r.0.streamType == bytes[0]
      && |r.0.payload| == BigEndian(bytes[1..HeaderSize])
      && r.0.payload == bytes[HeaderSize..r.1]
    ensures r.0.Frame? && |r.0.payload| > 0 ==> r.1 > HeaderSize
    ensures r.0.Truncated? <==> |bytes| >= HeaderSize && |bytes| - HeaderSize < BigEndian(bytes[1..HeaderSize])
  {
    if |bytes| < HeaderSize then (Frame(0, []), |bytes|)
    else
      var h := DecodeHeader(bytes[..HeaderSize]);
      assert bytes[..HeaderSize][1..] == bytes[1..HeaderSize];
      if |bytes| - HeaderSize < h.length then (Truncated, |bytes|)
      else (Frame(h.streamType, bytes[HeaderSize..HeaderSize + h.length]), HeaderSize + h.length)
  }

  /** The bytes a sender writes for one frame. */
  function EncodeFrame(streamType: byte, payload: seq<byte>): (r: seq<byte>)
    requires |payload| < TypeUnit
  {
    EncodeHeader(streamType, |payload|) + payload
  }

  /** Decoding undoes encoding, whatever follows the frame. */
  lemma FrameRoundTrip(streamType: byte, payload: seq<byte>, rest: seq<byte>)
    requires |payload| < TypeUnit
    ensures DecodeFrame(EncodeFrame(streamType, payload) + rest) == (Frame(streamType, payload), HeaderSize + |payload|)
  {
    var bytes := EncodeFrame(streamType, payload) + rest;
    assert bytes[..HeaderSize] == EncodeHeader(streamType, |payload|);
    HeaderRoundTrip(streamType, |payload|);
    assert bytes[HeaderSize..HeaderSize + |payload|] == payload;
  }

  /**
   * The read loop `__unpack_container_stream` runs twice (for the header and for
   * the payload): read until `n` bytes are collected or the socket ends.
   */
  method ReadFully(sock: seq<Chunk>, n: nat) returns (buf: seq<byte>, rest: seq<Chunk>, complete: bool)
    ensures complete <==> n <= |Flatten(sock)|
    ensures complete ==> buf == Flatten(sock)[..n] && Flatten(rest) == Flatten(sock)[n..]
    ensures !complete ==> rest == []
  {
    buf, rest := [], sock;
    while |buf| < n
      invariant |buf| <= n
      invariant Flatten(sock) == buf + Flatten(rest)
      decreases |Flatten(rest)|
    {
      var (r, rest') := Read(rest, n - |buf|);
      if |r| == 0 {
        return buf, rest', false;
      }
      buf, rest := buf + r, rest';
    }
    assert Flatten(sock)[..n] == buf;
    return buf, rest, true;
  }

  /**
   * `__unpack_container_stream`: reads the 8 header bytes, then exactly the
   * payload length, in as many reads as the socket needs. The result is the
   * frame `DecodeFrame` finds at the front of everything the socket holds, and the
   * socket is left holding what follows it.
   */
  method UnpackContainerStream(sock: seq<Chunk>) returns (u: Unpacked, rest: seq<Chunk>)
    ensures u == DecodeFrame(Flatten(sock)).0
    ensures Flatten(rest) == Flatten(sock)[DecodeFrame(Flatten(sock)).1..]
  {
    ghost var all := Flatten(sock);
    var header, afterHeader, gotHeader := ReadFully(sock, HeaderSize);
    if !gotHeader {
      return Frame(0, []), afterHeader;
    }
    var h := DecodeHeader(header);
    assert header[1..] == all[1..HeaderSize];
    var payload, afterPayload, gotPayload := ReadFully(afterHeader, h.length);
    if !gotPayload {
      return Truncated, afterPayload;
    }
    assert all[HeaderSize..][..h.length] == all[HeaderSize..HeaderSize + h.length];
    assert all[HeaderSize..][h.length..] == all[HeaderSize + h.length..];
    return Frame(h.streamType, payload), afterPayload;
  }
}

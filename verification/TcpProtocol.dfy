/** TcpProtocol (include/usn/protocol/tcp_protocol.hpp): building and parsing segments, and the checksum
    check. The packed header struct puts the window one byte late, so its low byte shares byte 16 of the
    frame with the checksum; the model keeps that layout. */
module TcpProtocol {
  import opened Words
  import opened Checksum
  import opened StateMachine

  const PROTO: nat := 0x06
  const HEADER_LEN: nat := 20

  datatype Header = Header(sourcePort: nat, destPort: nat, seqNum: nat, ackNum: nat, dataOffset: nat, flags: nat, window: nat)
  datatype Parsed = Rejected | Accepted(header: Header, payload: seq<Byte>)

  predicate Fits(c: Conn) {
    && c.localPort < 0x1_0000 && c.remotePort < 0x1_0000
    && c.localIp < 0x1_0000_0000 && c.remoteIp < 0x1_0000_0000
    && c.sendSeq < 0x1_0000_0000 && c.recvSeq < 0x1_0000_0000
    && c.windowSize < 0x1_0000
  }

  function At32(b: seq<Byte>, i: nat): nat
    requires i + 3 < |b|
  {
    0x1_0000 * At16(b, i) + At16(b, i + 2)
  }

  function Byte32(n: nat, j: nat): Byte {
    if j == 0 then n / 0x100_0000 % 256 else if j == 1 then n / 0x1_0000 % 256
    else if j == 2 then n / 256 % 256 else n % 256
  }

  /** Byte `i` of the header as copied into the buffer, before the checksum is stored. */
  function HeaderByte(c: Conn, ackNum: nat, flags: Byte, i: nat): Byte
    requires Fits(c) && ackNum < 0x1_0000_0000
  {
    if i == 0 then c.localPort / 256
    else if i == 1 then c.localPort % 256
    else if i == 2 then c.remotePort / 256
    else if i == 3 then c.remotePort % 256
    else if i < 8 then Byte32(c.sendSeq, i - 4)
    else if i < 12 then Byte32(ackNum, i - 8)
    else if i == 12 then 0x50
    else if i == 13 then flags
    else if i == 15 then c.windowSize / 256
    else if i == 16 then c.windowSize % 256
    else 0
  }

  function Unchecked(c: Conn, ackNum: nat, flags: Byte, data: seq<Byte>): (b: seq<Byte>)
    requires Fits(c) && ackNum < 0x1_0000_0000
    ensures |b| == 20 + |data|
  {
    seq(20, i requires 0 <= i < 20 => HeaderByte(c, ackNum, flags, i)) + data
  }

  /** The frame of `create_data` and `create_ack`: the checksum is taken with the window's low byte in
      place, and then written over it. */
  function Build(c: Conn, ackNum: nat, flags: Byte, data: seq<Byte>): (b: seq<Byte>)
    requires Fits(c) && ackNum < 0x1_0000_0000
    ensures |b| == 20 + |data|
  {
    var u := Unchecked(c, ackNum, flags, data);
    Store16(u, 16, Compute(u, c.localIp, c.remoteIp, PROTO))
  }

  function CreateData(c: Conn, data: seq<Byte>): seq<Byte>
    requires Fits(c)
  {
    Build(c, c.recvSeq, 24, data)
  }

  function CreateAck(c: Conn, ackNum: nat): seq<Byte>
    requires Fits(c) && ackNum < 0x1_0000_0000
  {
    Build(c, ackNum, 16, [])
  }

  function Parse(b: seq<Byte>): Parsed {
    if |b| < HEADER_LEN then Rejected
    else
      var offset: nat := b[12] / 16;
      var flags := Pair(b[12] % 16, b[13]);
      var h := Header(At16(b, 0), At16(b, 2), At32(b, 4), At32(b, 8), offset, flags, At16(b, 15));
      if offset * 4 < HEADER_LEN || offset * 4 > |b| then Rejected else Accepted(h, b[offset * 4..])
  }

  lemma Word32(n: nat, b: seq<Byte>, i: nat)
    requires n < 0x1_0000_0000 && i + 3 < |b| && forall j :: 0 <= j < 4 ==> b[i + j] == Byte32(n, j)
    ensures At32(b, i) == n
  {
    Halves(n);
    assert b[i + 0] == Byte32(n, 0) && b[i + 1] == Byte32(n, 1) && b[i + 2] == Byte32(n, 2) && b[i + 3] == Byte32(n, 3);
  }

  lemma Halves(n: nat)
    requires n < 0x1_0000_0000
    ensures Byte32(n, 0) == n / 0x1_0000 / 256 && Byte32(n, 1) == n / 0x1_0000 % 256
    ensures Byte32(n, 2) == n % 0x1_0000 / 256 && Byte32(n, 3) == n % 0x1_0000 % 256
  {
    var hi, lo := n / 0x1_0000, n % 0x1_0000;
    FourBytes(hi / 256, hi % 256, lo / 256, lo % 256, n);
  }

  lemma BuiltBytes(c: Conn, ackNum: nat, flags: Byte, data: seq<Byte>)
    requires Fits(c) && ackNum < 0x1_0000_0000
    ensures var b := Build(c, ackNum, flags, data);
            && (forall i :: 0 <= i < 16 ==> b[i] == HeaderByte(c, ackNum, flags, i))
            && b[16] == Compute(Unchecked(c, ackNum, flags, data), c.localIp, c.remoteIp, PROTO) / 256
            && b[20..] == data
  {
  }

  /** The fields read from a frame that carries the header bytes of `c`. */
  lemma HeaderFields(b: seq<Byte>, c: Conn, ackNum: nat, flags: Byte)
    requires Fits(c) && ackNum < 0x1_0000_0000 && |b| >= 20
    requires forall i :: 0 <= i < 16 ==> b[i] == HeaderByte(c, ackNum, flags, i)
    ensures At16(b, 0) == c.localPort && At16(b, 2) == c.remotePort
    ensures At32(b, 4) == c.sendSeq && At32(b, 8) == ackNum
    ensures b[12] == 0x50 && b[13] == flags && b[15] == c.windowSize / 256
  {
    assert b[0] == HeaderByte(c, ackNum, flags, 0) && b[1] == HeaderByte(c, ackNum, flags, 1);
    assert b[2] == HeaderByte(c, ackNum, flags, 2) && b[3] == HeaderByte(c, ackNum, flags, 3);
    Word32(c.sendSeq, b, 4);
    Word32(ackNum, b, 8);
  }

  /** Building and then parsing returns ports, sequence and acknowledgement numbers, data offset, flags and
      payload; of the window only the high byte survives, the low byte read back is the checksum's high byte. */
  lemma BuildThenParse(c: Conn, ackNum: nat, flags: Byte, data: seq<Byte>)
    requires Fits(c) && ackNum < 0x1_0000_0000
    ensures var checksum := Compute(Unchecked(c, ackNum, flags, data), c.localIp, c.remoteIp, PROTO);
            Parse(Build(c, ackNum, flags, data))
            == Accepted(Header(c.localPort, c.remotePort, c.sendSeq, ackNum, 5, flags,
                               Pair(c.windowSize / 256, checksum / 256)), data)
  {
    BuiltBytes(c, ackNum, flags, data);
    HeaderFields(Build(c, ackNum, flags, data), c, ackNum, flags);
  }

  /** What the order protocol's frames stand for: the bytes the client and the gateway write parse to exactly
      the frame, and the window the peer reads is within one byte of the one sent. */
  lemma DataFrameOnTheWire(c: Conn, data: seq<Byte>)
    requires Fits(c)
    ensures var r := Parse(CreateData(c, data));
            && r.Accepted?
            && Frame(r.header.seqNum, r.header.ackNum, r.header.flags, r.payload) == DataFrame(c, data)
            && r.header.window / 256 == c.windowSize / 256
  {
    BuildThenParse(c, c.recvSeq, 24, data);
  }

  lemma AckFrameOnTheWire(c: Conn, ackNum: nat)
    requires Fits(c) && ackNum < 0x1_0000_0000
    ensures var r := Parse(CreateAck(c, ackNum));
            && r.Accepted?
            && Frame(r.header.seqNum, r.header.ackNum, r.header.flags, r.payload) == AckFrame(c, ackNum)
  {
    BuildThenParse(c, ackNum, 16, []);
  }

  /** Any bytes at all: accepted exactly when the data offset covers the header and lies within the frame; then the
      payload is everything behind it, so options are skipped. */
  lemma AcceptedIff(b: seq<Byte>, options: seq<Byte>, data: seq<Byte>)
    ensures Parse(b).Accepted? <==> |b| >= 20 && 20 <= b[12] / 16 * 4 <= |b|
    ensures |b| >= 20 && b[12] / 16 * 4 == 20 + |options| && b[20..] == options + data ==>
              Parse(b).Accepted? && Parse(b).payload == data
  {
    if |b| >= 20 && b[12] / 16 * 4 == 20 + |options| && b[20..] == options + data {
      assert b[20 + |options|..] == b[20..][|options|..] == data;
    }
  }

  // ----- the checksum check -----

  function Zeroed(b: seq<Byte>): seq<Byte>
    requires |b| >= 20
  {
    b[16 := 0][17 := 0]
  }

  predicate Validate(b: seq<Byte>, srcIp: nat, dstIp: nat)
    requires srcIp < 0x1_0000_0000 && dstIp < 0x1_0000_0000
  {
    |b| >= HEADER_LEN && At16(b, 16) == Compute(Zeroed(b), srcIp, dstIp, PROTO)
  }

  /** A frame whose checksum was computed with bytes 16 and 17 zero validates. */
  lemma SealedValidates(b: seq<Byte>, srcIp: nat, dstIp: nat)
    requires srcIp < 0x1_0000_0000 && dstIp < 0x1_0000_0000 && |b| >= 20
    ensures Validate(Store16(b, 16, Compute(Zeroed(b), srcIp, dstIp, PROTO)), srcIp, dstIp)
  {
    var c := Compute(Zeroed(b), srcIp, dstIp, PROTO);
    assert Zeroed(Store16(b, 16, c)) == Zeroed(b);
  }

  /** Any change of a single byte of a frame that validates makes it fail. */
  lemma OneByteChangeDetected(b: seq<Byte>, srcIp: nat, dstIp: nat, i: nat, x: Byte)
    requires srcIp < 0x1_0000_0000 && dstIp < 0x1_0000_0000 && |b| <= 131000
    requires Validate(b, srcIp, dstIp) && i < |b| && x != b[i]
    ensures !Validate(b[i := x], srcIp, dstIp)
  {
    var c := b[i := x];
    if i == 16 || i == 17 {
      assert Zeroed(c) == Zeroed(b);
    } else {
      var z := Zeroed(b);
      assert Zeroed(c) == z[i := x] && z[i] == b[i];
      ChangedChecksum(z, srcIp, dstIp, i, x);
    }
  }

  lemma ChangedChecksum(z: seq<Byte>, srcIp: nat, dstIp: nat, i: nat, x: Byte)
    requires srcIp < 0x1_0000_0000 && dstIp < 0x1_0000_0000 && |z| <= 131000 && i < |z| && x != z[i]
    ensures Compute(z[i := x], srcIp, dstIp, PROTO) != Compute(z, srcIp, dstIp, PROTO)
  {
    SumFits(z, srcIp, dstIp, PROTO);
    SumFits(z[i := x], srcIp, dstIp, PROTO);
    SumUpdate(z, i, x, srcIp, dstIp, PROTO);
    ChangeMovesResidue(Sum(z, srcIp, dstIp, PROTO), Sum(z[i := x], srcIp, dstIp, PROTO), |z|, i, x - z[i]);
  }

  /** A frame that validates for one address pair validates for a pair with one 16-bit half changed exactly when
      the two halves are congruent modulo 65535, and its checksum is that of no other protocol number. */
  lemma ValidatesElsewhereIff(b: seq<Byte>, src: nat, dst: nat, src': nat, dst': nat, k: nat, proto: nat)
    requires src < 0x1_0000_0000 && dst < 0x1_0000_0000 && src' < 0x1_0000_0000 && dst' < 0x1_0000_0000
    requires |b| <= 131000 && Validate(b, src, dst) && SameBut(src, dst, src', dst', k)
    ensures Validate(b, src', dst') <==> Half(src', dst', k) % 65535 == Half(src, dst, k) % 65535
    ensures 0 < proto < 256 && proto != PROTO ==> At16(b, 16) != Compute(Zeroed(b), src, dst, proto)
  {
    HalfChanged(Zeroed(b), src, dst, src', dst', k, PROTO);
    if 0 < proto < 256 && proto != PROTO {
      OtherProtocolDiffers(Zeroed(b), src, dst, PROTO, proto);
    }
  }

  /** A frame built by `create_data` or `create_ack` passes `validate_checksum` exactly when the low byte of
      its window is zero, which the initial window of 65535 is not. */
  lemma BuiltValidatesIff(c: Conn, ackNum: nat, flags: Byte, data: seq<Byte>)
    requires Fits(c) && ackNum < 0x1_0000_0000 && |data| <= 130000
    ensures Validate(Build(c, ackNum, flags, data), c.localIp, c.remoteIp) <==> c.windowSize % 256 == 0
  {
    var u := Unchecked(c, ackNum, flags, data);
    var b := Build(c, ackNum, flags, data);
    assert At16(b, 16) == Compute(u, c.localIp, c.remoteIp, PROTO);
    assert u[16] == c.windowSize % 256 && u[17] == 0;
    assert Zeroed(b) == u[16 := 0];
    if c.windowSize % 256 == 0 {
      assert u[16 := 0] == u;
    } else {
      ChangedChecksum(u, c.localIp, c.remoteIp, 16, 0);
    }
  }

  /** `create_data` into the caller's buffer. */
  method CreateDataInto(c: Conn, data: seq<Byte>, buffer: array<Byte>) returns (len: nat)
    requires Fits(c) && 20 + |data| <= buffer.Length
    modifies buffer
    ensures len == 20 + |data|
    ensures buffer[..len] == CreateData(c, data)
    ensures buffer[len..] == old(buffer[len..])
  {
    len := 20 + |data|;
    WriteUnchecked(c, c.recvSeq, 24, data, buffer);
    var checksum := CalculateChecksum(buffer, len, c.localIp, c.remoteIp, PROTO);
    ghost var before := buffer[..len];
    buffer[16] := checksum / 256;
    buffer[17] := checksum % 256;
    assert buffer[..len] == Store16(before, 16, checksum);
  }

  method WriteUnchecked(c: Conn, ackNum: nat, flags: Byte, data: seq<Byte>, buffer: array<Byte>)
    requires Fits(c) && ackNum < 0x1_0000_0000 && 20 + |data| <= buffer.Length
    modifies buffer
    ensures buffer[..20 + |data|] == Unchecked(c, ackNum, flags, data)
    ensures buffer[20 + |data|..] == old(buffer[20 + |data|..])
  {
    for i := 0 to 20
      invariant forall j :: 0 <= j < i ==> buffer[j] == HeaderByte(c, ackNum, flags, j)
      invariant forall j :: 20 <= j < buffer.Length ==> buffer[j] == old(buffer[j])
    {
      buffer[i] := HeaderByte(c, ackNum, flags, i);
    }
    for i := 0 to |data|
      invariant forall j :: 0 <= j < 20 ==> buffer[j] == HeaderByte(c, ackNum, flags, j)
      invariant forall j :: 0 <= j < i ==> buffer[20 + j] == data[j]
      invariant forall j :: 20 + |data| <= j < buffer.Length ==> buffer[j] == old(buffer[j])
    {
      buffer[20 + i] := data[i];
    }
    forall j | 0 <= j < 20 + |data|
      ensures buffer[..20 + |data|][j] == Unchecked(c, ackNum, flags, data)[j]
    {
      if j >= 20 {
        assert buffer[20 + (j - 20)] == data[j - 20];
      }
    }
  }
}

/** UdpProtocol (include/usn/protocol/udp_protocol.hpp): building, parsing and verifying datagrams
    (RFC 768), with the checksum taken as the source takes it. */
module UdpProtocol {
  import opened Words
  import opened Checksum

  const PROTO: nat := 0x11

  datatype Header = Header(sourcePort: nat, destPort: nat, length: nat, checksum: nat)
  datatype Parsed = Rejected | Accepted(header: Header, payload: seq<Byte>)

  function Be16(w: nat): (b: seq<Byte>)
    requires w < 0x1_0000
    ensures |b| == 2
  {
    [w / 256, w % 256]
  }

  /** The datagram before its checksum is stored; the length field is 16 bits wide. */
  function Unchecked(payload: seq<Byte>, srcPort: nat, dstPort: nat): (b: seq<Byte>)
    requires srcPort < 0x1_0000 && dstPort < 0x1_0000
    ensures |b| == 8 + |payload| && b[8..] == payload && b[6] == 0 && b[7] == 0
    ensures At16(b, 0) == srcPort && At16(b, 2) == dstPort && At16(b, 4) == (8 + |payload|) % 0x1_0000
  {
    Be16(srcPort) + Be16(dstPort) + Be16((8 + |payload|) % 0x1_0000) + [0, 0] + payload
  }

  function Build(payload: seq<Byte>, srcPort: nat, dstPort: nat, srcIp: nat, dstIp: nat, withChecksum: bool): (b: seq<Byte>)
    requires srcPort < 0x1_0000 && dstPort < 0x1_0000 && srcIp < 0x1_0000_0000 && dstIp < 0x1_0000_0000
    ensures |b| == 8 + |payload|
  {
    var b := Unchecked(payload, srcPort, dstPort);
    if withChecksum && srcIp != 0 && dstIp != 0 then Store16(b, 6, Compute(b, srcIp, dstIp, PROTO)) else b
  }

  function Parse(b: seq<Byte>): Parsed {
    if |b| < 8 then Rejected
    else
      var h := Header(At16(b, 0), At16(b, 2), At16(b, 4), At16(b, 6));
      if h.length < 8 || h.length > |b| then Rejected else Accepted(h, b[8..h.length])
  }

  predicate Verify(b: seq<Byte>, srcIp: nat, dstIp: nat)
    requires srcIp < 0x1_0000_0000 && dstIp < 0x1_0000_0000
  {
    |b| >= 8 && Compute(b, srcIp, dstIp, PROTO) == 0
  }

  lemma BuiltFields(payload: seq<Byte>, srcPort: nat, dstPort: nat, srcIp: nat, dstIp: nat, withChecksum: bool)
    requires srcPort < 0x1_0000 && dstPort < 0x1_0000 && srcIp < 0x1_0000_0000 && dstIp < 0x1_0000_0000
    ensures var b := Build(payload, srcPort, dstPort, srcIp, dstIp, withChecksum);
            && b[8..] == payload
            && At16(b, 0) == srcPort && At16(b, 2) == dstPort && At16(b, 4) == |b| % 0x1_0000
  {
    var b := Build(payload, srcPort, dstPort, srcIp, dstIp, withChecksum);
    var u := Unchecked(payload, srcPort, dstPort);
    assert forall i :: 0 <= i < 6 ==> b[i] == u[i];
    assert b[8..] == u[8..];
  }

  /** Parsing what was built gives back the ports and the payload exactly when header and payload together
      fit the 16-bit length field. */
  lemma BuildThenParse(payload: seq<Byte>, srcPort: nat, dstPort: nat, srcIp: nat, dstIp: nat, withChecksum: bool)
    requires srcPort < 0x1_0000 && dstPort < 0x1_0000 && srcIp < 0x1_0000_0000 && dstIp < 0x1_0000_0000
    ensures var r := Parse(Build(payload, srcPort, dstPort, srcIp, dstIp, withChecksum));
            (r.Accepted? && r.payload == payload && r.header.sourcePort == srcPort && r.header.destPort == dstPort)
            <==> |payload| <= 65527
  {
    var b := Build(payload, srcPort, dstPort, srcIp, dstIp, withChecksum);
    BuiltFields(payload, srcPort, dstPort, srcIp, dstIp, withChecksum);
    if |payload| <= 65527 {
      Fits16(|b|);
      assert b[8..|b|] == payload;
    }
  }

  lemma Fits16(x: nat)
    requires x < 0x1_0000
    ensures x % 0x1_0000 == x
  {
  }

  /** What arrives need not be what was sent: of a datagram cut short to `k` bytes nothing is accepted, and bytes
      behind a whole one are ignored. */
  lemma CutOrExtended(payload: seq<Byte>, srcPort: nat, dstPort: nat, srcIp: nat, dstIp: nat, withChecksum: bool,
                      k: nat, more: seq<Byte>)
    requires srcPort < 0x1_0000 && dstPort < 0x1_0000 && srcIp < 0x1_0000_0000 && dstIp < 0x1_0000_0000
    requires |payload| <= 65527 && k < 8 + |payload|
    ensures var b := Build(payload, srcPort, dstPort, srcIp, dstIp, withChecksum);
            && Parse(b[..k]) == Rejected
            && Parse(b + more).Accepted? && Parse(b + more).payload == payload
            && Parse(b + more).header == Parse(b).header
  {
    var b := Build(payload, srcPort, dstPort, srcIp, dstIp, withChecksum);
    BuiltFields(payload, srcPort, dstPort, srcIp, dstIp, withChecksum);
    Fits16(|b|);
    SameHeader(b, b + more);
    if k >= 8 {
      SameHeader(b[..k], b);
    }
    assert (b + more)[8..|b|] == payload;
  }

  lemma SameHeader(a: seq<Byte>, b: seq<Byte>)
    requires |a| >= 8 && a <= b
    ensures At16(a, 0) == At16(b, 0) && At16(a, 2) == At16(b, 2) && At16(a, 4) == At16(b, 4) && At16(a, 6) == At16(b, 6)
  {
    assert forall i :: 0 <= i < |a| ==> a[i] == b[i];
  }

  /** Any bytes at all: accepted exactly when the length field covers the header and does not exceed what arrived. */
  lemma AcceptedIff(b: seq<Byte>)
    ensures Parse(b).Accepted? <==> |b| >= 8 && 8 <= At16(b, 4) <= |b|
    ensures Parse(b).Accepted? ==> |Parse(b).payload| == At16(b, 4) - 8 && Parse(b).payload <= b[8..]
  {
  }

  /** Without a checksum, or with an address missing, the checksum field stays zero. */
  lemma UncheckedField(payload: seq<Byte>, srcPort: nat, dstPort: nat, srcIp: nat, dstIp: nat, withChecksum: bool)
    requires srcPort < 0x1_0000 && dstPort < 0x1_0000 && srcIp < 0x1_0000_0000 && dstIp < 0x1_0000_0000
    requires !withChecksum || srcIp == 0 || dstIp == 0
    ensures At16(Build(payload, srcPort, dstPort, srcIp, dstIp, withChecksum), 6) == 0
  {
  }

  /** A datagram built with a checksum (both addresses non-zero) verifies. */
  lemma BuiltVerifies(payload: seq<Byte>, srcPort: nat, dstPort: nat, srcIp: nat, dstIp: nat)
    requires srcPort < 0x1_0000 && dstPort < 0x1_0000 && 0 < srcIp < 0x1_0000_0000 && 0 < dstIp < 0x1_0000_0000
    requires |payload| <= 65527
    ensures Verify(Build(payload, srcPort, dstPort, srcIp, dstIp, true), srcIp, dstIp)
  {
    var u := Unchecked(payload, srcPort, dstPort);
    StoredChecksumCancels(u, 6, srcIp, dstIp, PROTO);
    ZeroIffMultiple(Build(payload, srcPort, dstPort, srcIp, dstIp, true), srcIp, dstIp, PROTO);
  }

  /** Any change of a single byte of a datagram that verifies makes it fail. */
  lemma OneByteChangeDetected(b: seq<Byte>, srcIp: nat, dstIp: nat, i: nat, x: Byte)
    requires srcIp < 0x1_0000_0000 && dstIp < 0x1_0000_0000 && |b| <= 65535
    requires Verify(b, srcIp, dstIp) && i < |b| && x != b[i]
    ensures !Verify(b[i := x], srcIp, dstIp)
  {
    var c := b[i := x];
    ZeroIffMultiple(b, srcIp, dstIp, PROTO);
    ZeroIffMultiple(c, srcIp, dstIp, PROTO);
    SumUpdate(b, i, x, srcIp, dstIp, PROTO);
    ChangeMovesResidue(Sum(b, srcIp, dstIp, PROTO), Sum(c, srcIp, dstIp, PROTO), |b|, i, x - b[i]);
  }

  /** A datagram that verifies for one address pair verifies for a pair with one 16-bit half changed exactly when
      the two halves are congruent modulo 65535, and under no other protocol number. */
  lemma VerifiesElsewhereIff(b: seq<Byte>, src: nat, dst: nat, src': nat, dst': nat, k: nat, proto: nat)
    requires src < 0x1_0000_0000 && dst < 0x1_0000_0000 && src' < 0x1_0000_0000 && dst' < 0x1_0000_0000
    requires |b| <= 131000 && Verify(b, src, dst) && SameBut(src, dst, src', dst', k)
    ensures Verify(b, src', dst') <==> Half(src', dst', k) % 65535 == Half(src, dst, k) % 65535
    ensures 0 < proto < 256 && proto != PROTO ==> Compute(b, src, dst, proto) != 0
  {
    HalfChanged(b, src, dst, src', dst', k, PROTO);
    if 0 < proto < 256 && proto != PROTO {
      OtherProtocolDiffers(b, src, dst, PROTO, proto);
    }
  }

  /** Building into the caller's buffer, which must be large enough. */
  method Encapsulate(payload: seq<Byte>, srcPort: nat, dstPort: nat, srcIp: nat, dstIp: nat, withChecksum: bool,
                     buffer: array<Byte>) returns (len: nat)
    requires srcPort < 0x1_0000 && dstPort < 0x1_0000 && srcIp < 0x1_0000_0000 && dstIp < 0x1_0000_0000
    requires 8 + |payload| <= buffer.Length
    modifies buffer
    ensures len == 8 + |payload|
    ensures buffer[..len] == Build(payload, srcPort, dstPort, srcIp, dstIp, withChecksum)
    ensures buffer[len..] == old(buffer[len..])
  {
    len := 8 + |payload|;
    WriteUnchecked(payload, srcPort, dstPort, buffer);
    if withChecksum && srcIp != 0 && dstIp != 0 {
      var checksum := CalculateChecksum(buffer, len, srcIp, dstIp, PROTO);
      ghost var before := buffer[..len];
      buffer[6] := checksum / 256;
      buffer[7] := checksum % 256;
      assert buffer[..len] == Store16(before, 6, checksum);
    }
  }

  method WriteUnchecked(payload: seq<Byte>, srcPort: nat, dstPort: nat, buffer: array<Byte>)
    requires srcPort < 0x1_0000 && dstPort < 0x1_0000 && 8 + |payload| <= buffer.Length
    modifies buffer
    ensures buffer[..8 + |payload|] == Unchecked(payload, srcPort, dstPort)
    ensures buffer[8 + |payload|..] == old(buffer[8 + |payload|..])
  {
    var length := (8 + |payload|) % 0x1_0000;
    buffer[0], buffer[1] := srcPort / 256, srcPort % 256;
    buffer[2], buffer[3] := dstPort / 256, dstPort % 256;
    buffer[4], buffer[5] := length / 256, length % 256;
    buffer[6], buffer[7] := 0, 0;
    ghost var head := [srcPort / 256, srcPort % 256, dstPort / 256, dstPort % 256, length / 256, length % 256, 0, 0];
    for i := 0 to |payload|
      invariant forall j :: 0 <= j < 8 ==> buffer[j] == head[j]
      invariant forall j :: 0 <= j < i ==> buffer[8 + j] == payload[j]
      invariant forall j :: 8 + |payload| <= j < buffer.Length ==> buffer[j] == old(buffer[j])
    {
      buffer[8 + i] := payload[i];
    }
    WrittenOut(payload, srcPort, dstPort, buffer[..8 + |payload|]);
  }

  lemma WrittenOut(payload: seq<Byte>, srcPort: nat, dstPort: nat, b: seq<Byte>)
    requires srcPort < 0x1_0000 && dstPort < 0x1_0000 && |b| == 8 + |payload|
    requires var length := (8 + |payload|) % 0x1_0000;
             b[..8] == [srcPort / 256, srcPort % 256, dstPort / 256, dstPort % 256, length / 256, length % 256, 0, 0]
    requires forall j :: 0 <= j < |payload| ==> b[8 + j] == payload[j]
    ensures b == Unchecked(payload, srcPort, dstPort)
  {
    assert b[8..] == payload;
    assert b == b[..8] + b[8..];
  }
}

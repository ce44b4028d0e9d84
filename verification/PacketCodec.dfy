/** The version-1 packet: an 81-byte header (version, nonce, path) followed by the payload
    (guid, message).  Encoding and the accessors are inverse to each other, so a header names exactly
    one nonce of one path. */
module PacketCodec {
  import opened Common
  import opened Bytes

  type Bytes32 = s: seq<byte> | |s| == 32 witness seq(32, _ => 0)

  const PACKET_VERSION: byte := 1
  const PACKET_HEADER_SIZE := 81

  const NONCE_OFFSET := 1
  const SRC_EID_OFFSET := 9
  const SENDER_OFFSET := 13
  const DST_EID_OFFSET := 45
  const RECEIVER_OFFSET := 49
  const GUID_OFFSET := 81
  const MESSAGE_OFFSET := 113

  type HeaderBytes = s: seq<byte> | |s| == PACKET_HEADER_SIZE witness seq(81, _ => 0)

  datatype Packet = Packet(nonce: u64, srcEid: u32, sender: Bytes32, dstEid: u32, receiver: Bytes32,
                           guid: Bytes32, message: seq<byte>)

  function EncodePacketHeader(nonce: u64, srcEid: u32, sender: Bytes32, dstEid: u32, receiver: Bytes32): HeaderBytes {
    [PACKET_VERSION] + ToBytes(nonce, 8) + ToBytes(srcEid, 4) + sender + ToBytes(dstEid, 4) + receiver
  }

  function Encode(p: Packet): seq<byte> {
    EncodePacketHeader(p.nonce, p.srcEid, p.sender, p.dstEid, p.receiver) + p.guid + p.message
  }

  function Header(packet: seq<byte>): HeaderBytes
    requires PACKET_HEADER_SIZE <= |packet|
  {
    packet[0..GUID_OFFSET]
  }

  function VersionOf(packet: seq<byte>): byte
    requires PACKET_HEADER_SIZE <= |packet|
  {
    packet[0]
  }

  function NonceOf(packet: seq<byte>): u64
    requires PACKET_HEADER_SIZE <= |packet|
  {
    U64At(packet, NONCE_OFFSET)
  }

  function SrcEidOf(packet: seq<byte>): u32
    requires PACKET_HEADER_SIZE <= |packet|
  {
    U32At(packet, SRC_EID_OFFSET)
  }

  function SenderOf(packet: seq<byte>): Bytes32
    requires PACKET_HEADER_SIZE <= |packet|
  {
    packet[SENDER_OFFSET..SENDER_OFFSET + 32]
  }

  function DstEidOf(packet: seq<byte>): u32
    requires PACKET_HEADER_SIZE <= |packet|
  {
    U32At(packet, DST_EID_OFFSET)
  }

  function ReceiverOf(packet: seq<byte>): Bytes32
    requires PACKET_HEADER_SIZE <= |packet|
  {
    packet[RECEIVER_OFFSET..RECEIVER_OFFSET + 32]
  }

  function GuidOf(packet: seq<byte>): Bytes32
    requires MESSAGE_OFFSET <= |packet|
  {
    packet[GUID_OFFSET..GUID_OFFSET + 32]
  }

  function MessageOf(packet: seq<byte>): seq<byte>
    requires MESSAGE_OFFSET <= |packet|
  {
    packet[MESSAGE_OFFSET..]
  }

  function PayloadOf(packet: seq<byte>): seq<byte>
    requires PACKET_HEADER_SIZE <= |packet|
  {
    packet[GUID_OFFSET..]
  }

  /** The six fields of a header lie where the offsets say. */
  lemma HeaderLayout(nonce: u64, srcEid: u32, sender: Bytes32, dstEid: u32, receiver: Bytes32)
    ensures var h := EncodePacketHeader(nonce, srcEid, sender, dstEid, receiver);
            && h[0] == PACKET_VERSION && h[1..9] == ToBytes(nonce, 8) && h[9..13] == ToBytes(srcEid, 4)
            && h[13..45] == sender && h[45..49] == ToBytes(dstEid, 4) && h[49..81] == receiver
  {
  }

  /** The guid and the message follow the 81 bytes of the header. */
  lemma PacketLayout(p: Packet)
    ensures var e := Encode(p);
            && e[..81] == EncodePacketHeader(p.nonce, p.srcEid, p.sender, p.dstEid, p.receiver)
            && e[81..113] == p.guid && e[113..] == p.message
  {
  }

  /** Every accessor reads back the field that the encoder wrote. */
  lemma AccessorsInvertEncodeHeader(nonce: u64, srcEid: u32, sender: Bytes32, dstEid: u32, receiver: Bytes32)
    ensures var h := EncodePacketHeader(nonce, srcEid, sender, dstEid, receiver);
            && VersionOf(h) == PACKET_VERSION && NonceOf(h) == nonce && SrcEidOf(h) == srcEid
            && SenderOf(h) == sender && DstEidOf(h) == dstEid && ReceiverOf(h) == receiver
  {
    HeaderLayout(nonce, srcEid, sender, dstEid, receiver);
    FieldWidths();
    FromToBytes(nonce, 8);
    FromToBytes(srcEid, 4);
    FromToBytes(dstEid, 4);
  }

  /** The other direction: a header of version 1 is the encoding of the fields read from it. */
  lemma EncodeInvertsAccessors(h: HeaderBytes)
    requires VersionOf(h) == PACKET_VERSION
    ensures EncodePacketHeader(NonceOf(h), SrcEidOf(h), SenderOf(h), DstEidOf(h), ReceiverOf(h)) == h
  {
    ToFromBytes(h[1..9]);
    ToFromBytes(h[9..13]);
    ToFromBytes(h[45..49]);
    assert h == [h[0]] + h[1..9] + h[9..13] + h[13..45] + h[45..49] + h[49..81];
  }

  /** A whole packet splits into its header and its payload, and every field is read back. */
  lemma AccessorsInvertEncode(p: Packet)
    ensures var e := Encode(p);
            && Header(e) == EncodePacketHeader(p.nonce, p.srcEid, p.sender, p.dstEid, p.receiver)
            && PayloadOf(e) == p.guid + p.message
            && GuidOf(e) == p.guid && MessageOf(e) == p.message
            && VersionOf(e) == PACKET_VERSION && NonceOf(e) == p.nonce && SrcEidOf(e) == p.srcEid
            && SenderOf(e) == p.sender && DstEidOf(e) == p.dstEid && ReceiverOf(e) == p.receiver
  {
    var e := Encode(p);
    var h := EncodePacketHeader(p.nonce, p.srcEid, p.sender, p.dstEid, p.receiver);
    AccessorsInvertEncodeHeader(p.nonce, p.srcEid, p.sender, p.dstEid, p.receiver);
    assert e == h + (p.guid + p.message);
    assert e[0..81] == h && e[81..] == p.guid + p.message;
    assert e[0] == h[0] && e[1..9] == h[1..9] && e[9..13] == h[9..13];
    assert e[13..45] == h[13..45] && e[45..49] == h[45..49] && e[49..81] == h[49..81];
    assert e[81..113] == p.guid && e[113..] == p.message;
  }

  /** The header is injective: equal headers name the same nonce on the same path. */
  lemma HeaderInjective(p: Packet, q: Packet)
    requires EncodePacketHeader(p.nonce, p.srcEid, p.sender, p.dstEid, p.receiver)
          == EncodePacketHeader(q.nonce, q.srcEid, q.sender, q.dstEid, q.receiver)
    ensures p.nonce == q.nonce && p.srcEid == q.srcEid && p.sender == q.sender
    ensures p.dstEid == q.dstEid && p.receiver == q.receiver
  {
    AccessorsInvertEncodeHeader(p.nonce, p.srcEid, p.sender, p.dstEid, p.receiver);
    AccessorsInvertEncodeHeader(q.nonce, q.srcEid, q.sender, q.dstEid, q.receiver);
  }
}

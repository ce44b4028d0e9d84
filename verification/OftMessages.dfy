/** The message that one OFT sends to its peer, and the message that the receiving OFT hands to a
    composer.  Both are read back field by field. */
module OftMessages {
  import opened Common
  import opened Bytes
  import opened PacketCodec

  const SEND_AMOUNT_SD_OFFSET := 32
  const COMPOSE_MSG_OFFSET := 40
  const COMPOSE_FROM_OFFSET := 20
  const COMPOSED_MSG_OFFSET := 52

  // ---------- the transfer message ----------

  function EncodeTransfer(sendTo: Bytes32, amountSd: u64, sender: Bytes32,
                          composeMsg: Option<seq<byte>>): (m: seq<byte>)
    ensures COMPOSE_MSG_OFFSET <= |m|
  {
    sendTo + ToBytes(amountSd, 8) + (if composeMsg.Some? then sender + composeMsg.value else [])
  }

  /** The program appends to a buffer. */
  method Encode(sendTo: Bytes32, amountSd: u64, sender: Bytes32,
                composeMsg: Option<seq<byte>>) returns (encoded: seq<byte>)
    ensures encoded == EncodeTransfer(sendTo, amountSd, sender, composeMsg)
  {
    encoded := [];
    encoded := encoded + sendTo;
    encoded := encoded + ToBytes(amountSd, 8);
    match composeMsg {
      case Some(msg) =>
        encoded := encoded + sender;
        encoded := encoded + msg;
      case None =>
    }
  }

  function SendTo(message: seq<byte>): Bytes32
    requires COMPOSE_MSG_OFFSET <= |message|
  {
    message[..SEND_AMOUNT_SD_OFFSET]
  }

  function AmountSd(message: seq<byte>): u64
    requires COMPOSE_MSG_OFFSET <= |message|
  {
    U64At(message, SEND_AMOUNT_SD_OFFSET)
  }

  function ComposeMsg(message: seq<byte>): Option<seq<byte>> {
    if |message| > COMPOSE_MSG_OFFSET then Some(message[COMPOSE_MSG_OFFSET..]) else None
  }

  /** Every field of a transfer is read back; the compose part arrives with the sender in front of it,
      and is absent exactly if none was given. */
  lemma TransferRoundTrip(sendTo: Bytes32, amountSd: u64, sender: Bytes32, composeMsg: Option<seq<byte>>)
    ensures var m := EncodeTransfer(sendTo, amountSd, sender, composeMsg);
            && SendTo(m) == sendTo && AmountSd(m) == amountSd
            && ComposeMsg(m) == if composeMsg.Some? then Some(sender + composeMsg.value) else None
  {
    var m := EncodeTransfer(sendTo, amountSd, sender, composeMsg);
    FieldWidths();
    hide ToBytes, FromBytes, Pow256;
    FromToBytes(amountSd, 8);
    assert m[32..40] == ToBytes(amountSd, 8);
    assert composeMsg.Some? ==> m[40..] == sender + composeMsg.value;
  }

  /** The fields of a transfer, byte by byte: 32 of the receiver, 8 of the amount, and, with a compose part,
      32 of the sender before the text. */
  lemma TransferLayout(sendTo: Bytes32, amountSd: u64, sender: Bytes32, composeMsg: Option<seq<byte>>)
    ensures var m := EncodeTransfer(sendTo, amountSd, sender, composeMsg);
            && m[0..32] == sendTo && m[32..40] == ToBytes(amountSd, 8)
            && (composeMsg.None? ==> |m| == 40)
            && (composeMsg.Some? ==> 72 <= |m| && m[40..72] == sender && m[72..] == composeMsg.value)
  {
    hide ToBytes;
  }

  /** A transfer determines its receiver, amount and compose part. */
  lemma TransferInjective(to1: Bytes32, amount1: u64, sender1: Bytes32, compose1: Option<seq<byte>>,
                          to2: Bytes32, amount2: u64, sender2: Bytes32, compose2: Option<seq<byte>>)
    requires EncodeTransfer(to1, amount1, sender1, compose1) == EncodeTransfer(to2, amount2, sender2, compose2)
    ensures to1 == to2 && amount1 == amount2 && compose1 == compose2
    ensures compose1.Some? ==> sender1 == sender2
  {
    TransferRoundTrip(to1, amount1, sender1, compose1);
    TransferRoundTrip(to2, amount2, sender2, compose2);
    if compose1.Some? {
      var tail := sender1 + compose1.value;
      assert tail[..32] == sender1 && tail[32..] == compose1.value;
      assert tail[..32] == sender2 && tail[32..] == compose2.value;
    }
  }

  // ---------- the composed message ----------

  function EncodeComposed(nonce: u64, srcEid: u32, amountLd: u64, composeMsg: seq<byte>): (m: seq<byte>) {
    ToBytes(nonce, 8) + ToBytes(srcEid, 4) + ToBytes(amountLd, 8) + composeMsg
  }

  /** What the composer reads from the message that follows a transfer with a compose part: the nonce,
      the source, the amount credited, who sent it, and what they wrote. */
  lemma ComposedRoundTrip(nonce: u64, srcEid: u32, amountLd: u64, sendTo: Bytes32, amountSd: u64, sender: Bytes32,
                          composeMsg: seq<byte>)
    ensures var transfer := EncodeTransfer(sendTo, amountSd, sender, Some(composeMsg));
            var m := EncodeComposed(nonce, srcEid, amountLd, ComposeMsg(transfer).value);
            && COMPOSED_MSG_OFFSET <= |m|
            && U64At(m, 0) == nonce && U32At(m, 8) == srcEid && U64At(m, 12) == amountLd
            && m[COMPOSE_FROM_OFFSET..COMPOSED_MSG_OFFSET] == sender && m[COMPOSED_MSG_OFFSET..] == composeMsg
  {
    TransferRoundTrip(sendTo, amountSd, sender, Some(composeMsg));
    FieldWidths();
    hide ToBytes, FromBytes, Pow256, EncodeTransfer, ComposeMsg;
    FromToBytes(nonce, 8);
    FromToBytes(srcEid, 4);
    FromToBytes(amountLd, 8);
    var m := EncodeComposed(nonce, srcEid, amountLd, sender + composeMsg);
    assert m[0..8] == ToBytes(nonce, 8) && m[8..12] == ToBytes(srcEid, 4) && m[12..20] == ToBytes(amountLd, 8);
    assert m[20..52] == sender && m[52..] == composeMsg;
  }
}

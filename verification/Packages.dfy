/** `Package`: one message with its header. */
module Packages {
  import opened ByteStream
  import opened Framing

  class Package {
    var buffer: seq<byte>
    var length: nat
    var commandId: nat
    var subId: nat

    ghost function Value(): Pdu
      reads this
    {
      Pdu(length, commandId, subId, buffer)
    }

    constructor ()
      ensures commandId == 0 && subId == 0
    {
      buffer := [];
      length, commandId, subId := 0, 0, 0;
    }

    /** Fills the package with a message to send; `buf` is the C string without its terminator. */
    method SetMsg(commandId: nat, subId: nat, buf: seq<byte>)
      requires Sendable(Message(commandId, subId, buf))
      modifies this
      ensures buffer == Frame(Message(commandId, subId, buf))
      ensures length == |buffer| && this.commandId == commandId && this.subId == subId
    {
      var totalLength := HEADER_LEN + |buf|;
      buffer := WriteUint32(totalLength) + WriteUint16(commandId) + WriteUint16(subId);
      buffer := buffer + buf;
      this.length := totalLength;
      this.commandId := commandId;
      this.subId := subId;
    }

    /** Decodes the header; fails on fewer bytes than a header has. */
    method ReadPduHeader(buf: seq<byte>) returns (ret: int)
      modifies this
      ensures ret == if |buf| >= HEADER_LEN then 0 else -1
      ensures buffer == old(buffer)
      ensures ret == 0 ==>
        length == ReadUint32(buf) && commandId == ReadUint16(buf[4..]) && subId == ReadUint16(buf[6..])
      ensures ret != 0 ==> length == old(length) && commandId == old(commandId) && subId == old(subId)
    {
      ret := -1;
      if |buf| >= HEADER_LEN {
        length := DecodeUint32(buf);
        commandId := DecodeUint16(buf[4..]);
        subId := DecodeUint16(buf[6..]);
        ret := 0;
      }
    }

    static method IsPduAvailable(buf: seq<byte>) returns (available: bool, pduLength: nat)
      ensures available == Available(buf)
      ensures available ==> pduLength == ReadUint32(buf)
    {
      pduLength := 0;
      if |buf| < HEADER_LEN {
        return false, pduLength;
      }
      pduLength := DecodeUint32(buf);
      if pduLength > |buf| {
        return false, pduLength;
      }
      if 0 == pduLength {
        return false, pduLength;
      }
      return true, pduLength;
    }

    /** The first package of the buffer, or null if it is not complete. */
    static method ReadPdu(buf: seq<byte>) returns (pack: Package?)
      ensures pack != null <==> Available(buf)
      ensures pack != null ==> fresh(pack) && pack.Value() == First(buf)
    {
      var available, pduLength := IsPduAvailable(buf);
      if !available {
        return null;
      }
      hide ReadUint32, ReadUint16;
      pack := new Package();
      var ret := pack.ReadPduHeader(buf[..HEADER_LEN]);
      assert buf == buf[..HEADER_LEN] + buf[HEADER_LEN..];
      ReadPrefix(buf[..HEADER_LEN], buf[HEADER_LEN..]);
      pack.buffer := buf[..pduLength];
    }
  }
}

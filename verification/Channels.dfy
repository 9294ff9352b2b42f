/** `Channel`: one accepted connection with its two buffers. */
module Channels {
  import opened ByteStream
  import opened Framing
  import opened ByteBuffer
  import opened Packages
  import opened Sequences
  import opened ServerModel

  /** The sending end of a connection: what it has taken and what each `send` returned. */
  class Socket {
    ghost var wire: seq<byte>
    ghost var answers: seq<int>

    constructor ()
      ensures wire == [] && answers == []
    {
      wire, answers := [], [];
    }

    /** `send` of at most `WRITE_BUF_SIZE` bytes. What it answers is not determined: an error, nothing, or
        any number of the bytes offered, which then are a prefix of them. */
    method Send(buf: seq<byte>) returns (ret: int)
      requires 0 < |buf| <= WRITE_BUF_SIZE
      modifies this
      ensures -1 <= ret <= |buf| && answers == old(answers) + [ret]
      ensures wire == old(wire) + buf[..if ret < 0 then 0 else ret]
    {
      ret :| -1 <= ret <= |buf|;
      answers := answers + [ret];
      wire := wire + buf[..if ret < 0 then 0 else ret];
    }
  }

  /** The answers of `send` while a buffer is sent: all but the last one are positive, ... */
  ghost predicate Sending(answers: seq<int>) {
    forall i | 0 <= i < |answers| - 1 :: answers[i] > 0
  }

  /** ... and this is the last one; positive if nothing was to be sent. */
  function LastOf(answers: seq<int>): int {
    if answers == [] then 1 else answers[|answers| - 1]
  }

  class Channel {
    const fd: int
    const inBuf: Buffer
    const outBuf: Buffer
    /** Whether the watcher waits for writability; it always waits for readability. */
    var armed: bool
    /** The history since the channel was accepted, see `ChannelState`. */
    ghost var received: seq<byte>
    ghost var posted: seq<Pdu>
    ghost var queued: seq<byte>
    ghost var sent: seq<byte>
    ghost var stalled: bool

    ghost function Repr(): set<object>
      reads this, inBuf, outBuf
    {
      {this, inBuf, outBuf, inBuf.data, outBuf.data}
    }

    ghost predicate Valid()
      reads Repr()
    {
      && inBuf.Valid() && outBuf.Valid()
      && inBuf != outBuf && inBuf.data != outBuf.data
    }

    ghost function State(): ChannelState
      requires Valid()
      reads Repr()
    {
      ChannelState(inBuf.Contents(), outBuf.Contents(), armed, received, posted, queued, sent, stalled)
    }

    constructor (fd: int)
      ensures this.fd == fd
      ensures fresh(Repr()) && Valid() && State() == ACCEPTED
    {
      this.fd := fd;
      inBuf := new Buffer();
      outBuf := new Buffer();
      armed := false;
      received, posted, queued, sent, stalled := [], [], [], [], false;
    }

    twostate lemma Untouched()
      requires old(Valid())
      requires forall o | o in old(Repr()) :: unchanged(o)
      ensures Valid() && State() == old(State()) && Repr() == old(Repr())
    {
      assert this in old(Repr()) && inBuf in old(Repr()) && outBuf in old(Repr());
      assert old(inBuf.data) in old(Repr()) && old(outBuf.data) in old(Repr());
      assert unchanged(inBuf) && unchanged(outBuf);
    }

    /** Cuts one package off the in-buffer. */
    method ReadPackage() returns (pack: Package?)
      requires inBuf.Valid()
      modifies inBuf`writeOffset, inBuf.data
      ensures inBuf.Valid()
      ensures pack != null <==> Available(old(inBuf.Contents()))
      ensures pack != null ==> fresh(pack) && pack.Value() == First(old(inBuf.Contents()))
      ensures pack != null ==> inBuf.Contents() == old(inBuf.Contents())[ReadUint32(old(inBuf.Contents()))..]
      ensures pack == null ==> inBuf.Contents() == old(inBuf.Contents())
    {
      hide ReadUint32, ReadUint16;
      pack := Package.ReadPdu(inBuf.data[..inBuf.writeOffset]);
      if pack != null {
        ghost var before := inBuf.Contents();
        var bytes := inBuf.Read(pack.length);
        assert inBuf.Contents() == (bytes + inBuf.Contents())[|bytes|..];
      }
    }

    /** Cuts all packages off, the loop of `OnRead`. */
    method ReadPackages() returns (packs: seq<Pdu>)
      requires Valid()
      modifies inBuf`writeOffset, inBuf.data
      ensures Valid()
      ensures packs == Cut(old(inBuf.Contents())) && inBuf.Contents() == Rest(old(inBuf.Contents()))
    {
      hide ReadUint32, ReadUint16, First, Available;
      packs := [];
      ghost var before := inBuf.Contents();
      ghost var rest := Cut(before);
      while true
        invariant Valid()
        invariant rest == Cut(inBuf.Contents()) && packs + rest == Cut(before) && Rest(inBuf.Contents()) == Rest(before)
        decreases inBuf.writeOffset
      {
        ghost var b := inBuf.Contents();
        var pack := ReadPackage();
        if pack == null {
          break;
        }
        CutOnce(b);
        Regroup(packs, [First(b)], Cut(inBuf.Contents()));
        rest := Cut(inBuf.Contents());
        packs := packs + [Pdu(pack.length, pack.commandId, pack.subId, pack.buffer)];
      }
    }

    /** `OnRead` on the channel when `recv` returned bytes. */
    method OnData(chunk: seq<byte>) returns (packs: seq<Pdu>)
      requires Valid() && 0 < |chunk| <= READ_BUF_SIZE
      requires |inBuf.Contents()| + READ_BUF_SIZE <= MAX_BUF_SIZE
      modifies this, inBuf, inBuf.data
      ensures Valid() && fresh(Repr() - old(Repr()))
      ensures State() == AfterData(old(State()), chunk)
      ensures packs == Cut(old(inBuf.Contents()) + chunk)
    {
      hide Cut, Rest;
      ReceiveChunk(chunk);
      packs := ReadPackages();
      armed := outBuf.writeOffset > 0;
      received, posted, stalled := received + chunk, posted + packs, false;
    }

    /** `recv` writes behind the contents of the in-buffer. */
    method ReceiveChunk(chunk: seq<byte>)
      requires Valid() && |chunk| <= READ_BUF_SIZE
      requires |inBuf.Contents()| + READ_BUF_SIZE <= MAX_BUF_SIZE
      modifies inBuf, inBuf.data
      ensures Valid() && inBuf.Contents() == old(inBuf.Contents()) + chunk
      ensures inBuf.data == old(inBuf.data) || fresh(inBuf.data)
    {
      MakeRoom();
      inBuf.Put(chunk);
      inBuf.IncWriteOffset(|chunk|);
    }

    /** Before `recv`: the in-buffer grows if fewer than `READ_BUF_SIZE` bytes are free. */
    method MakeRoom()
      requires Valid() && |inBuf.Contents()| + READ_BUF_SIZE <= MAX_BUF_SIZE
      modifies inBuf
      ensures Valid() && inBuf.allocSize - inBuf.writeOffset >= READ_BUF_SIZE
      ensures inBuf.Contents() == old(inBuf.Contents())
      ensures inBuf.data == old(inBuf.data) || fresh(inBuf.data)
    {
      if inBuf.allocSize - inBuf.writeOffset < READ_BUF_SIZE {
        inBuf.Extend(READ_BUF_SIZE);
      }
    }

    /** Appends a frame to the out-buffer and updates the watcher. */
    method Enqueue(frame: seq<byte>)
      requires Valid() && |outBuf.Contents()| + |frame| <= MAX_BUF_SIZE
      modifies this, outBuf, outBuf.data
      ensures Valid() && fresh(Repr() - old(Repr()))
      ensures State() == AfterPush(old(State()), frame)
    {
      outBuf.Write(frame);
      armed := outBuf.writeOffset > 0;
      queued, stalled := queued + frame, false;
    }

    /** The sending loop of `OnWrite`: it ends when everything is sent or `send` has answered with an
        error or nothing; the bytes the socket has taken meanwhile leave the out-buffer. */
    method SendLoop(socket: Socket) returns (ghost wire: seq<byte>, ghost answers: seq<int>, write: bool)
      requires outBuf.Valid() && socket as object != outBuf && socket as object != outBuf.data
      modifies outBuf`writeOffset, outBuf.data, socket
      ensures outBuf.Valid() && wire + outBuf.Contents() == old(outBuf.Contents())
      ensures socket.wire == old(socket.wire) + wire && socket.answers == old(socket.answers) + answers
      ensures Sending(answers) && LastOf(answers) >= -1
      ensures (LastOf(answers) > 0 <==> outBuf.Contents() == []) && write == (LastOf(answers) == -1)
    {
      wire, answers, write := [], [], false;
      while outBuf.writeOffset > 0
        invariant outBuf.Valid() && wire + outBuf.Contents() == old(outBuf.Contents())
        invariant socket.wire == old(socket.wire) + wire && socket.answers == old(socket.answers) + answers
        invariant (forall i | 0 <= i < |answers| :: answers[i] > 0) && !write
        decreases outBuf.writeOffset
      {
        var sendLength := outBuf.writeOffset;
        if sendLength > WRITE_BUF_SIZE {
          sendLength := WRITE_BUF_SIZE;
        }
        var ret := SendFront(socket, sendLength);
        answers := answers + [ret];
        if ret == -1 {
          write := true;
          break;
        } else if ret == 0 {
          break;
        } else {
          ghost var before := outBuf.Contents();
          var bytes := outBuf.Read(ret);
          assert bytes == before[..ret];
          Regroup(wire, bytes, outBuf.Contents());
          wire := wire + bytes;
        }
      }
    }

    /** One `send` from the front of the out-buffer. */
    method SendFront(socket: Socket, sendLength: nat) returns (ret: int)
      requires outBuf.Valid() && socket as object != outBuf && socket as object != outBuf.data
      requires 0 < sendLength <= WRITE_BUF_SIZE && sendLength <= outBuf.writeOffset
      modifies socket
      ensures -1 <= ret <= sendLength && socket.answers == old(socket.answers) + [ret]
      ensures socket.wire == old(socket.wire) + outBuf.Contents()[..if ret < 0 then 0 else ret]
    {
      ghost var taken := socket.wire;
      ret := socket.Send(outBuf.data[..sendLength]);
      var n := if ret < 0 then 0 else ret;
      assert outBuf.data[..sendLength][..n] == outBuf.Contents()[..n];
    }

    /** Sends what it can: the bytes that the socket takes leave the out-buffer. The watcher waits for
        writability only after an error. */
    method OnWrite(socket: Socket) returns (ghost wire: seq<byte>, ghost answers: seq<int>)
      requires Valid() && socket !in Repr()
      modifies this, outBuf, outBuf.data, socket
      ensures Valid() && Repr() == old(Repr())
      ensures socket.wire == old(socket.wire) + wire && socket.answers == old(socket.answers) + answers
      ensures Sending(answers) && Sent(old(State()), wire, LastOf(answers), State())
    {
      var write: bool;
      wire, answers, write := SendLoop(socket);
      armed := write;
      sent, stalled := sent + wire, LastOf(answers) == 0;
    }
  }
}

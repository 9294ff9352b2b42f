/** The handlers of `EpollServer` for accepted connections. */
module EpollServer {
  import opened NetUtil
  import opened ByteStream
  import opened Framing
  import opened ByteBuffer
  import opened Channels
  import M = ServerModel

  class EpollServer {
    var channels: map<int, Channel>
    /** What was pushed for the workers. */
    var mq2s: seq<M.Posted>

    ghost function Buffers(): set<Buffer>
      reads this`channels
    {
      (set fd | fd in channels :: channels[fd].inBuf) + (set fd | fd in channels :: channels[fd].outBuf)
    }

    ghost function ChannelsRepr(): set<object>
      reads this`channels, channels.Values, Buffers()
    {
      set fd, o | fd in channels && o in channels[fd].Repr() :: o
    }

    ghost predicate Valid()
      reads this`channels, channels.Values, Buffers(), ChannelsRepr()
    {
      && (forall fd | fd in channels :: channels[fd].fd == fd && channels[fd].Valid())
      && (forall f, g | f in channels && g in channels && f != g :: channels[f].Repr() !! channels[g].Repr())
    }

    ghost function States(): M.Channels
      requires Valid()
      reads this`channels, channels.Values, Buffers(), ChannelsRepr()
    {
      map fd | fd in channels :: channels[fd].State()
    }

    constructor ()
      ensures Valid() && States() == map[] && mq2s == []
    {
      channels := map[];
      mq2s := [];
    }

    lemma Parts(fd: int)
      requires Valid() && fd in channels
      ensures channels[fd].fd == fd && channels[fd].Valid() && channels[fd].Repr() <= ChannelsRepr()
      ensures States().Keys == channels.Keys && States()[fd] == channels[fd].State()
      ensures forall g | g in channels && g != fd :: channels[g].Repr() !! channels[fd].Repr()
    {
    }

    lemma Keys()
      requires Valid()
      ensures States().Keys == channels.Keys && this !in ChannelsRepr()
    {
    }

    ghost function ReprOf(fd: int): set<object>
      reads this`channels, channels.Values, Buffers()
    {
      if fd in channels then channels[fd].Repr() else {}
    }

    /** All channels but one are as they were, and that one has only gained new objects. */
    twostate predicate OthersKept(fd: int)
      reads this`channels, channels.Values, Buffers()
    {
      && fd in channels && old(channels.Keys) <= channels.Keys <= old(channels.Keys) + {fd}
      && fresh(channels[fd].Repr() - old(ReprOf(fd)))
      && forall g | g in channels && g != fd ::
        && channels[g] == old(channels[g]) && channels[g].Repr() == old(channels[g].Repr())
        && channels[g].Repr() !! old(ReprOf(fd))
    }

    twostate lemma OnlyFreshAdded(fd: int)
      requires OthersKept(fd)
      ensures fresh(ChannelsRepr() - old(ChannelsRepr()))
    {
      forall o | o in ChannelsRepr() && o !in old(ChannelsRepr())
        ensures fresh(o)
      {
        var g :| g in channels && o in channels[g].Repr();
        assert g == fd;
      }
    }

    twostate lemma StillApart(fd: int)
      requires OthersKept(fd)
      ensures forall g | g in channels && g != fd :: channels[g].Repr() !! channels[fd].Repr()
    {
      forall g | g in channels && g != fd
        ensures channels[g].Repr() !! channels[fd].Repr()
      {
        forall o | o in old(channels[g].Repr())
          ensures o !in channels[fd].Repr()
        {
          assert !fresh(o);
        }
      }
    }

    twostate lemma OthersUntouched(fd: int)
      requires old(Valid()) && old(channels.Keys) <= channels.Keys
      requires forall g | g in old(channels) && g != fd :: channels[g] == old(channels[g])
      requires forall g | g in old(channels) && g != fd :: forall o | o in old(channels[g].Repr()) :: unchanged(o)
      ensures forall g | g in old(channels) && g != fd ::
        && channels[g].fd == g && channels[g].Valid()
        && channels[g].State() == old(channels[g].State()) && channels[g].Repr() == old(channels[g].Repr())
    {
      forall g | g in old(channels) && g != fd
        ensures channels[g].fd == g && channels[g].Valid()
        ensures channels[g].State() == old(channels[g].State()) && channels[g].Repr() == old(channels[g].Repr())
      {
        channels[g].Untouched();
      }
    }

    /** A handler that changes one channel only keeps the server well-formed. */
    twostate lemma OneChannelChanged(fd: int)
      requires old(Valid()) && channels == old(channels) && fd in channels
      requires channels[fd].Valid() && fresh(channels[fd].Repr() - old(channels[fd].Repr()))
      requires forall g | g in channels && g != fd :: forall o | o in old(channels[g].Repr()) :: unchanged(o)
      ensures OthersKept(fd) && Valid()
      ensures States() == old(States())[fd := channels[fd].State()]
    {
      hide Valid, States, OthersKept;
      OthersUntouched(fd);
      ChangedChannelKeepsOthers(fd);
      ValidExtended(fd);
      StatesReplaced(fd);
    }

    twostate lemma ChangedChannelKeepsOthers(fd: int)
      requires channels == old(channels) && fd in channels && old(Valid())
      requires fresh(channels[fd].Repr() - old(channels[fd].Repr()))
      requires forall g | g in channels && g != fd :: channels[g].Repr() == old(channels[g].Repr())
      ensures OthersKept(fd) && channels[fd].fd == fd
    {
    }

    twostate lemma StatesReplaced(fd: int)
      requires old(Valid()) && Valid() && channels == old(channels) && fd in channels
      requires forall g | g in channels && g != fd :: channels[g].State() == old(channels[g].State())
      ensures States() == old(States())[fd := channels[fd].State()]
    {
    }

    /** A new channel keeps the server well-formed. */
    twostate lemma ChannelAdded(fd: int)
      requires old(Valid()) && fd !in old(channels) && fd in channels
      requires channels == old(channels)[fd := channels[fd]]
      requires channels[fd].fd == fd && fresh(channels[fd].Repr()) && channels[fd].Valid()
      requires forall g | g in old(channels) :: forall o | o in old(channels[g].Repr()) :: unchanged(o)
      ensures OthersKept(fd) && Valid()
      ensures States() == old(States())[fd := channels[fd].State()]
    {
      hide Valid, States, OthersKept;
      OthersUntouched(fd);
      NewChannelKeepsOthers(fd);
      ValidExtended(fd);
      StatesExtended(fd);
    }

    twostate lemma ValidExtended(fd: int)
      requires old(Valid()) && OthersKept(fd)
      requires forall g | g in channels :: channels[g].fd == g && channels[g].Valid()
      ensures Valid()
    {
      StillApart(fd);
    }

    twostate lemma NewChannelKeepsOthers(fd: int)
      requires fd !in old(channels) && fd in channels
      requires channels == old(channels)[fd := channels[fd]] && fresh(channels[fd].Repr())
      requires forall g | g in old(channels) :: channels[g].Repr() == old(channels[g].Repr())
      ensures OthersKept(fd)
    {
    }

    twostate lemma StatesExtended(fd: int)
      requires old(Valid()) && Valid() && fd !in old(channels) && fd in channels
      requires channels == old(channels)[fd := channels[fd]]
      requires forall g | g in old(channels) :: channels[g].State() == old(channels[g].State())
      ensures States() == old(States())[fd := channels[fd].State()]
    {
      var t := old(States())[fd := channels[fd].State()];
      assert States().Keys == t.Keys;
      forall g | g in channels
        ensures States()[g] == t[g]
      {
        if g != fd {
          assert channels[g] == old(channels[g]);
          assert old(States())[g] == old(channels[g].State());
        }
      }
    }

    /** `OnAccept`: a channel for the connection, unless there is one under its descriptor. */
    method OnAccept(fd: int)
      requires Valid()
      modifies this`channels
      ensures Valid() && fresh(ChannelsRepr() - old(ChannelsRepr()))
      ensures M.Step(old(States()), M.Accept(fd), States())
    {
      hide Valid, States, ChannelsRepr, OthersKept;
      Keys();
      if fd !in channels {
        var channel := new Channel(fd);
        channels := channels[fd := channel];
        ChannelAdded(fd);
        OnlyFreshAdded(fd);
      }
    }

    twostate lemma ChannelRemoved(fd: int)
      requires old(Valid()) && fd in old(channels) && channels == old(channels) - {fd}
      requires forall g | g in channels :: forall o | o in old(channels[g].Repr()) :: unchanged(o)
      ensures Valid() && States() == old(States()) - {fd}
      ensures ChannelsRepr() <= old(ChannelsRepr())
    {
      forall g | g in channels
        ensures channels[g].fd == g && channels[g].Valid() && channels[g].State() == old(channels[g].State())
        ensures channels[g].Repr() == old(channels[g].Repr())
      {
        channels[g].Untouched();
      }
      StatesReduced(fd);
    }

    twostate lemma StatesReduced(fd: int)
      requires old(Valid()) && Valid() && channels == old(channels) - {fd}
      requires forall g | g in channels :: channels[g].State() == old(channels[g].State())
      ensures States() == old(States()) - {fd}
    {
      var t := old(States()) - {fd};
      assert States().Keys == t.Keys;
      forall g | g in channels
        ensures States()[g] == t[g]
      {
        assert channels[g] == old(channels[g]) && old(States())[g] == old(channels[g].State());
      }
    }

    twostate lemma NewOnesAreFresh()
      requires fresh(ChannelsRepr() - old(ChannelsRepr()))
      ensures forall o | o in ChannelsRepr() && o !in old(ChannelsRepr()) :: fresh(o)
    {
      hide ChannelsRepr;
      forall o | o in ChannelsRepr() && o !in old(ChannelsRepr())
        ensures fresh(o)
      {
        assert o in ChannelsRepr() - old(ChannelsRepr());
      }
    }

    /** `OnRead`: `recv` returned the bytes `received`; none stand for an error or a closed
        connection. The channel is freed then, so that the room made before does not matter. */
    method OnRead(fd: int, received: seq<byte>)
      requires Valid() && |received| <= READ_BUF_SIZE
      requires fd in States() ==> |States()[fd].inb| + READ_BUF_SIZE <= MAX_BUF_SIZE
      modifies this`mq2s, this`channels, ChannelsRepr()
      ensures Valid() && fresh(ChannelsRepr() - old(ChannelsRepr()))
      ensures M.Step(old(States()), M.Received(fd, received), States())
      ensures mq2s == old(mq2s) + M.Posts(old(States()), M.Received(fd, received))
    {
      hide Valid, States, ChannelsRepr, OthersKept;
      Keys();
      if fd in channels {
        if received == [] {
          OnFdClosed(fd);
        } else {
          OnData(fd, received);
        }
      } else {
        assert States() - {fd} == States();
      }
    }

    /** One read of it: chunk number `i` arrives. */
    method ReceiveChunk(fd: int, chunks: seq<seq<byte>>, i: nat, ghost ms: seq<Message>)
      requires Valid() && fd in States() && i < |chunks| && 0 < |chunks[i]| <= READ_BUF_SIZE
      requires States()[fd].inb == Rest(Concat(chunks[..i]))
      requires AllSendable(ms) && Concat(chunks) == Stream(ms) && Fits(Stream(ms))
      modifies this`mq2s, this`channels, ChannelsRepr()
      ensures Valid() && fresh(ChannelsRepr() - old(ChannelsRepr()))
      ensures fd in States() && States()[fd].inb == Rest(Concat(chunks[..i + 1]))
      ensures mq2s == old(mq2s) + M.Packs(fd, Cut(Rest(Concat(chunks[..i])) + chunks[i]))
      ensures States() - {fd} == old(States()) - {fd}
    {
      hide Valid, States, ChannelsRepr, Rest, Cut, Stream, Fits, AllSendable, M.Packs, Concat;
      ghost var before := States();
      RoomForChunk(chunks, i, ms);
      ChunkArrives(chunks, i);
      OnRead(fd, chunks[i]);
      assert States() == before[fd := M.AfterData(before[fd], chunks[i])];
      assert States() - {fd} == before - {fd};
    }

    /** The event loop while one client sends: its bytes arrive in chunks of any sizes that `recv`
        can return. If the header fields of its messages decode to themselves and no frame exceeds
        3073 bytes, exactly the messages are posted, in order, and the in-buffer never lacks room. */
    method ReceiveMessages(fd: int, chunks: seq<seq<byte>>, ghost ms: seq<Message>) returns (ghost packages: seq<Pdu>)
      requires Valid() && fd in States() && States()[fd].inb == []
      requires forall i | 0 <= i < |chunks| :: 0 < |chunks[i]| <= READ_BUF_SIZE
      requires AllSendable(ms) && AllHeadersDecode(ms) && Concat(chunks) == Stream(ms)
      requires forall i | 0 <= i < |ms| :: ms[i].TotalLength() <= 3073
      modifies this`mq2s, this`channels, ChannelsRepr()
      ensures Valid() && fd in States() && States()[fd].inb == []
      ensures AsMessages(packages) == ms && mq2s == old(mq2s) + M.Packs(fd, packages)
      ensures States() - {fd} == old(States()) - {fd}
    {
      hide Valid, States, ChannelsRepr, Rest, Cut, Frame, AllSendable, AllHeadersDecode, Stream;
      DecodingLengths(ms);
      FitsIffShort(ms);
      NothingCut();
      assert chunks[..0] == [];
      var i := 0;
      while i < |chunks|
        invariant 0 <= i <= |chunks|
        invariant Valid() && forall o | o in ChannelsRepr() && o !in old(ChannelsRepr()) :: fresh(o)
        invariant fd in States() && States()[fd].inb == Rest(Concat(chunks[..i]))
        invariant mq2s == old(mq2s) + M.Packs(fd, Cut(Concat(chunks[..i])))
        invariant States() - {fd} == old(States()) - {fd}
      {
        label reading:
        ReceiveChunk(fd, chunks, i, ms);
        NewOnesAreFresh@reading();
        ChunkArrives(chunks, i);
        M.PacksAppend(fd, Cut(Concat(chunks[..i])), Cut(Rest(Concat(chunks[..i])) + chunks[i]));
        i := i + 1;
      }
      assert chunks[..|chunks|] == chunks;
      packages := Cut(Stream(ms));
      MessagesArrive(ms);
    }

    /** `OnFdClosed`: forgets the channel, if there is one, and tells the workers in any case. */
    method OnFdClosed(fd: int)
      requires Valid()
      modifies this`mq2s, this`channels
      ensures Valid() && ChannelsRepr() <= old(ChannelsRepr())
      ensures M.Step(old(States()), M.Closed(fd), States())
      ensures mq2s == old(mq2s) + [M.PostedClose(M.UniqidOf(fd))]
    {
      hide Valid, States, ChannelsRepr, OthersKept;
      Keys();
      if fd in channels {
        channels := channels - {fd};
        ChannelRemoved(fd);
      } else {
        assert States() - {fd} == States();
      }
      Post([M.PostedClose(M.UniqidOf(fd))]);
    }

    method OnData(fd: int, chunk: seq<byte>)
      requires Valid() && 0 < |chunk| <= READ_BUF_SIZE
      requires fd in States() && |States()[fd].inb| + READ_BUF_SIZE <= MAX_BUF_SIZE
      modifies this`mq2s, ChannelsRepr()
      ensures Valid() && fresh(ChannelsRepr() - old(ChannelsRepr()))
      ensures M.Step(old(States()), M.Data(fd, chunk), States())
      ensures mq2s == old(mq2s) + M.Posts(old(States()), M.Data(fd, chunk))
    {
      hide Valid, States, ChannelsRepr, OthersKept;
      var packs := ReadChannel(fd, chunk);
      Post(M.Packs(fd, packs));
    }

    /** The part of `OnRead` that changes the channel. */
    method ReadChannel(fd: int, chunk: seq<byte>) returns (packs: seq<Pdu>)
      requires Valid() && 0 < |chunk| <= READ_BUF_SIZE
      requires fd in States() && |States()[fd].inb| + READ_BUF_SIZE <= MAX_BUF_SIZE
      modifies ChannelsRepr()
      ensures Valid() && fresh(ChannelsRepr() - old(ChannelsRepr())) && mq2s == old(mq2s)
      ensures States() == old(States())[fd := M.AfterData(old(States())[fd], chunk)]
      ensures packs == Cut(old(States())[fd].inb + chunk)
    {
      hide Valid, States, ChannelsRepr, OthersKept;
      Keys();
      Parts(fd);
      var channel := channels[fd];
      packs := channel.OnData(chunk);
      OneChannelChanged(fd);
      OnlyFreshAdded(fd);
    }

    method Post(posts: seq<M.Posted>)
      requires Valid()
      modifies this`mq2s
      ensures Valid() && States() == old(States()) && ChannelsRepr() == old(ChannelsRepr())
      ensures mq2s == old(mq2s) + posts
    {
      hide Valid, States, ChannelsRepr;
      Keys();
      ghost var objects: set<object> := channels.Values + Buffers();
      assert this !in objects;
      mq2s := mq2s + posts;
    }

    /** `OnWrite`: what the socket takes goes out. */
    method OnWrite(fd: int, socket: Socket) returns (ghost wire: seq<byte>, ghost answers: seq<int>)
      requires Valid() && socket !in ChannelsRepr()
      modifies ChannelsRepr(), socket
      ensures Valid() && fresh(ChannelsRepr() - old(ChannelsRepr()))
      ensures socket.wire == old(socket.wire) + wire && socket.answers == old(socket.answers) + answers
      ensures Sending(answers) && M.Step(old(States()), M.Writable(fd, wire, LastOf(answers)), States())
    {
      hide Valid, States, ChannelsRepr, OthersKept, M.Sent;
      Keys();
      wire, answers := [], [];
      if fd in channels {
        Parts(fd);
        var channel := channels[fd];
        wire, answers := channel.OnWrite(socket);
        OneChannelChanged(fd);
        OnlyFreshAdded(fd);
      }
    }

    /** Hands a frame to the channel with this id, if there is one. */
    method Push(uniqid: nat, frame: seq<byte>)
      requires Valid()
      requires var fd := AsInt32(uniqid); fd in States() ==> |States()[fd].out| + |frame| <= MAX_BUF_SIZE
      modifies ChannelsRepr()
      ensures Valid() && fresh(ChannelsRepr() - old(ChannelsRepr()))
      ensures States() == M.Push(old(States()), uniqid, frame)
    {
      hide Valid, States, ChannelsRepr, OthersKept;
      Keys();
      var fd := AsInt32(uniqid);
      if fd in channels {
        Parts(fd);
        var channel := channels[fd];
        channel.Enqueue(frame);
        OneChannelChanged(fd);
        OnlyFreshAdded(fd);
      }
    }

    method PushMany(ids: seq<nat>, frame: seq<byte>)
      requires Valid() && M.RoomMany(States(), ids, frame)
      modifies ChannelsRepr()
      ensures Valid() && fresh(ChannelsRepr() - old(ChannelsRepr()))
      ensures States() == M.PushMany(old(States()), ids, frame)
    {
      hide Valid, States, ChannelsRepr, OthersKept, M.RoomMany, M.Push;
      var uniqids := ids;
      while uniqids != []
        invariant Valid() && forall o | o in ChannelsRepr() && o !in old(ChannelsRepr()) :: fresh(o)
        invariant M.PushMany(States(), uniqids, frame) == M.PushMany(old(States()), ids, frame)
        invariant M.RoomMany(States(), uniqids, frame)
        decreases |uniqids|
      {
        ghost var states := States();
        M.RoomForFirstOfMany(states, uniqids, frame);
        label before:
        Push(uniqids[0], frame);
        assert M.PushMany(states, uniqids, frame) == M.PushMany(States(), uniqids[1..], frame);
        uniqids := uniqids[1..];
        NewOnesAreFresh@before();
      }
    }

    /** `OnEventfd`: `popped` is what `MQ2C_Pop` yields before it yields nothing. */
    method OnEventfd(popped: seq<M.Outgoing>)
      requires Valid() && M.Room(States(), popped)
      requires forall i | 0 <= i < |popped| :: M.HasFrame(popped[i])
      modifies ChannelsRepr()
      ensures Valid() && fresh(ChannelsRepr() - old(ChannelsRepr()))
      ensures M.Step(old(States()), M.Wakeup(popped), States())
    {
      hide Valid, States, ChannelsRepr, OthersKept, M.Room, M.RoomMany, M.HasFrame, M.Push;
      var i := 0;
      assert popped[0..] == popped;
      while i < |popped|
        invariant 0 <= i <= |popped|
        invariant Valid() && forall o | o in ChannelsRepr() && o !in old(ChannelsRepr()) :: fresh(o)
        invariant M.Deliver(States(), popped[i..]) == M.Deliver(old(States()), popped)
        invariant M.Room(States(), popped[i..])
      {
        label before:
        M.RoomForFirst(States(), popped[i..]);
        assert popped[i..][0] == popped[i] && popped[i..][1..] == popped[i + 1..];
        match popped[i] {
          case ToOne(uniqid, frame) =>
            M.RoomForFirstOfMany(States(), [uniqid], frame);
            Push(uniqid, frame);
          case ToMany(uniqids, frame) =>
            PushMany(uniqids, frame);
          case OtherType =>
        }
        i := i + 1;
        NewOnesAreFresh@before();
      }
    }
  }

  lemma DecodingLengths(ms: seq<Message>)
    requires AllHeadersDecode(ms)
    ensures AllLengthsDecode(ms)
  {
  }

  lemma NothingCut()
    ensures Cut([]) == [] && Rest([]) == [] && Concat([]) == []
  {
  }

  /** What is left before a chunk arrives leaves room for it. */
  lemma RoomForChunk(chunks: seq<seq<byte>>, i: nat, ms: seq<Message>)
    requires i < |chunks| && AllSendable(ms) && Concat(chunks) == Stream(ms) && Fits(Stream(ms))
    ensures |Rest(Concat(chunks[..i]))| + READ_BUF_SIZE <= MAX_BUF_SIZE
  {
    hide Rest, Stream;
    ConcatSplits(chunks, i);
    var s := Concat(chunks[..i]);
    assert s == Stream(ms)[..|s|];
  }

  lemma ChunkArrives(chunks: seq<seq<byte>>, i: nat)
    requires i < |chunks|
    ensures var b := Concat(chunks[..i]);
      && Rest(Rest(b) + chunks[i]) == Rest(Concat(chunks[..i + 1]))
      && Cut(b) + Cut(Rest(b) + chunks[i]) == Cut(Concat(chunks[..i + 1]))
  {
    hide Rest, Cut;
    var front := chunks[..i + 1];
    ConcatSplits(front, i);
    assert front[..i] == chunks[..i] && front[i..] == [chunks[i]];
    assert Concat([chunks[i]]) == chunks[i];
    CutAppend(Concat(chunks[..i]), chunks[i]);
  }
}

/** The socket side of the server on values: what each handler of `EpollServer` does to the
    channels, and what holds in every run of handlers. */
module ServerModel {
  import opened NetUtil
  import opened ByteStream
  import opened Framing
  import opened Sequences

  /** One accepted connection: its buffers and whether its watcher waits for writability. Behind
      them its history since it was accepted: the bytes received, the packages posted to the
      workers, the frames queued for sending, the bytes the socket took, and whether the last
      handler gave up on a `send` that returned 0. */
  datatype ChannelState = ChannelState(
    inb: seq<byte>, out: seq<byte>, armed: bool,
    received: seq<byte>, posted: seq<Pdu>, queued: seq<byte>, sent: seq<byte>, stalled: bool)

  const ACCEPTED := ChannelState([], [], false, [], [], [], [], false)

  type Channels = map<int, ChannelState>

  /** What the socket thread pushes for the workers. */
  datatype Posted = PostedPack(uniqid: nat, package: Pdu) | PostedClose(uniqid: nat)

  /** What the socket thread pops from the workers. */
  datatype Outgoing = ToOne(uniqid: nat, frame: seq<byte>) | ToMany(uniqids: seq<nat>, frame: seq<byte>) | OtherType

  /** `GetUniqidFromFd`; `GetFdFromUniqid` is `AsInt32`. */
  function UniqidOf(fd: int): nat {
    AsUint32(fd)
  }

  /** The handlers, with what the socket answered: `recv` returned a chunk or nothing; `send` took
      the bytes `wire` before it returned `last`. */
  datatype Event =
    | Accept(fd: int)
    | Data(fd: int, chunk: seq<byte>)
    | Closed(fd: int)
    | Writable(fd: int, wire: seq<byte>, last: int)
    | Wakeup(popped: seq<Outgoing>)

  /** The result of `recv`: no bytes stand for an error or a closed connection. */
  function Received(fd: int, bytes: seq<byte>): Event {
    if bytes == [] then Closed(fd) else Data(fd, bytes)
  }

  function AfterData(c: ChannelState, chunk: seq<byte>): ChannelState {
    c.(inb := Rest(c.inb + chunk), posted := c.posted + Cut(c.inb + chunk), received := c.received + chunk,
       armed := c.out != [], stalled := false)
  }

  function AfterPush(c: ChannelState, frame: seq<byte>): ChannelState {
    c.(out := c.out + frame, queued := c.queued + frame, armed := c.out + frame != [], stalled := false)
  }

  /** Sending ends when the out-buffer is empty, `send` fails or `send` takes nothing. Only a
      failure leaves the watcher waiting for writability. */
  ghost predicate Sent(c: ChannelState, wire: seq<byte>, last: int, d: ChannelState) {
    && c.out == wire + d.out
    && (last > 0 <==> d.out == []) && last >= -1
    && d == c.(out := d.out, sent := c.sent + wire, armed := last == -1, stalled := last == 0)
  }

  /** Whatever number of bytes the socket takes, they go out from the front, and the handler ends like
      that: with a positive answer exactly if they were all. */
  lemma AnyPrefixCanGo(c: ChannelState, k: nat, last: int)
    requires k <= |c.out| && last >= -1 && (last > 0 <==> k == |c.out|)
    ensures Sent(c, c.out[..k], last,
      c.(out := c.out[k..], sent := c.sent + c.out[..k], armed := last == -1, stalled := last == 0))
  {
  }

  function Push(s: Channels, uniqid: nat, frame: seq<byte>): (t: Channels)
    ensures t.Keys == s.Keys
  {
    var fd := AsInt32(uniqid);
    if fd in s then s[fd := AfterPush(s[fd], frame)] else s
  }

  function PushMany(s: Channels, uniqids: seq<nat>, frame: seq<byte>): (t: Channels)
    ensures t.Keys == s.Keys
    decreases |uniqids|
  {
    if uniqids == [] then s else PushMany(Push(s, uniqids[0], frame), uniqids[1..], frame)
  }

  function PushOne(s: Channels, m: Outgoing): (t: Channels)
    ensures t.Keys == s.Keys
  {
    match m
    case ToOne(uniqid, frame) => Push(s, uniqid, frame)
    case ToMany(uniqids, frame) => PushMany(s, uniqids, frame)
    case OtherType => s
  }

  function Deliver(s: Channels, popped: seq<Outgoing>): (t: Channels)
    ensures t.Keys == s.Keys
    decreases |popped|
  {
    if popped == [] then s else Deliver(PushOne(s, popped[0]), popped[1..])
  }

  ghost predicate Step(s: Channels, e: Event, t: Channels) {
    match e
    case Accept(fd) => t == if fd in s then s else s[fd := ACCEPTED]
    case Data(fd, chunk) => t == if fd in s then s[fd := AfterData(s[fd], chunk)] else s
    case Closed(fd) => t == s - {fd}
    case Writable(fd, wire, last) =>
      if fd in s then fd in t && t == s[fd := t[fd]] && Sent(s[fd], wire, last, t[fd]) else t == s
    case Wakeup(popped) => t == Deliver(s, popped)
  }

  function Packs(fd: int, ps: seq<Pdu>): (r: seq<Posted>)
    ensures |r| == |ps| && forall i | 0 <= i < |ps| :: r[i] == PostedPack(UniqidOf(fd), ps[i])
  {
    seq(|ps|, i requires 0 <= i < |ps| => PostedPack(UniqidOf(fd), ps[i]))
  }

  lemma PacksAppend(fd: int, ps: seq<Pdu>, qs: seq<Pdu>)
    ensures Packs(fd, ps + qs) == Packs(fd, ps) + Packs(fd, qs)
  {
  }

  /** What a handler posts to the workers. */
  function Posts(s: Channels, e: Event): seq<Posted> {
    match e
    case Data(fd, chunk) => if fd in s then Packs(fd, Cut(s[fd].inb + chunk)) else []
    case Closed(fd) => if fd in s then [PostedClose(UniqidOf(fd))] else []
    case _ => []
  }

  // ----- every run -----

  /** The packages posted are those of the whole byte stream; sent and waiting bytes are those
      queued; the watcher waits for writability exactly while bytes wait, except after a `send`
      that returned 0. */
  ghost predicate Consistent(c: ChannelState) {
    && c.posted == Cut(c.received) && c.inb == Rest(c.received)
    && c.sent + c.out == c.queued
    && (c.armed <==> c.out != [] && !c.stalled)
    && (c.stalled ==> c.out != [])
  }

  ghost predicate AllConsistent(s: Channels) {
    forall fd | fd in s :: Consistent(s[fd])
  }

  lemma DataKeeps(c: ChannelState, chunk: seq<byte>)
    requires Consistent(c)
    ensures Consistent(AfterData(c, chunk))
  {
    CutAppend(c.received, chunk);
  }

  lemma PushKeeps(c: ChannelState, frame: seq<byte>)
    requires Consistent(c)
    ensures Consistent(AfterPush(c, frame))
  {
    assert c.sent + (c.out + frame) == (c.sent + c.out) + frame;
  }

  lemma SentKeeps(c: ChannelState, wire: seq<byte>, last: int, d: ChannelState)
    requires Consistent(c) && Sent(c, wire, last, d)
    ensures Consistent(d)
  {
    assert c.sent + (wire + d.out) == (c.sent + wire) + d.out;
  }

  lemma {:induction false} PushManyKeeps(s: Channels, uniqids: seq<nat>, frame: seq<byte>)
    requires AllConsistent(s)
    ensures AllConsistent(PushMany(s, uniqids, frame))
    decreases |uniqids|
  {
    hide Consistent, AfterPush;
    if uniqids != [] {
      var fd := AsInt32(uniqids[0]);
      if fd in s {
        PushKeeps(s[fd], frame);
      }
      PushManyKeeps(Push(s, uniqids[0], frame), uniqids[1..], frame);
    }
  }

  lemma {:induction false} DeliverKeeps(s: Channels, popped: seq<Outgoing>)
    requires AllConsistent(s)
    ensures AllConsistent(Deliver(s, popped))
    decreases |popped|
  {
    hide Consistent, AfterPush;
    if popped != [] {
      var m := popped[0];
      if m.ToOne? {
        PushManyKeeps(s, [m.uniqid], m.frame);
        assert PushMany(s, [m.uniqid], m.frame) == Push(s, m.uniqid, m.frame);
      } else if m.ToMany? {
        PushManyKeeps(s, m.uniqids, m.frame);
      }
      DeliverKeeps(PushOne(s, m), popped[1..]);
    }
  }

  lemma StepKeeps(s: Channels, e: Event, t: Channels)
    requires AllConsistent(s) && Step(s, e, t)
    ensures AllConsistent(t)
  {
    hide AfterData, Sent;
    match e
    case Accept(fd) =>
    case Data(fd, chunk) => hide Consistent; if fd in s { DataKeeps(s[fd], chunk); }
    case Closed(fd) =>
    case Writable(fd, wire, last) => hide Consistent; if fd in s { SentKeeps(s[fd], wire, last, t[fd]); }
    case Wakeup(popped) => DeliverKeeps(s, popped);
  }

  ghost predicate Run(states: seq<Channels>, events: seq<Event>) {
    && |states| == |events| + 1
    && forall i | 0 <= i < |events| :: Step(states[i], events[i], states[i + 1])
  }

  /** In every run from a server without channels, all channels are always consistent. */
  lemma {:induction false} EveryRunIsConsistent(states: seq<Channels>, events: seq<Event>, n: nat)
    requires Run(states, events) && states[0] == map[] && n < |states|
    ensures AllConsistent(states[n])
  {
    hide Step;
    if n > 0 {
      EveryRunIsConsistent(states, events, n - 1);
      StepKeeps(states[n - 1], events[n - 1], states[n]);
    }
  }

  // ----- stalls -----

  /** Whether a popped message is for the channel. */
  predicate Addressed(m: Outgoing, fd: int) {
    match m
    case ToOne(uniqid, _) => AsInt32(uniqid) == fd
    case ToMany(uniqids, _) => AmongFds(uniqids, fd)
    case OtherType => false
  }

  predicate AmongFds(uniqids: seq<nat>, fd: int)
    decreases |uniqids|
  {
    uniqids != [] && (AsInt32(uniqids[0]) == fd || AmongFds(uniqids[1..], fd))
  }

  predicate AnyAddressed(popped: seq<Outgoing>, fd: int)
    decreases |popped|
  {
    popped != [] && (Addressed(popped[0], fd) || AnyAddressed(popped[1..], fd))
  }

  /** Whether the last handler that set the watcher of the channel was one that gave up on a `send`
      that returned 0: no read and no frame for the channel has come since. */
  ghost predicate GaveUp(states: seq<Channels>, events: seq<Event>, n: nat, fd: int)
    requires n <= |events| && n < |states|
    decreases n
  {
    n > 0 && fd in states[n - 1] &&
    match events[n - 1]
    case Accept(_) => GaveUp(states, events, n - 1, fd)
    case Data(g, _) => g != fd && GaveUp(states, events, n - 1, fd)
    case Closed(g) => g != fd && GaveUp(states, events, n - 1, fd)
    case Writable(g, _, last) => if g == fd then last == 0 else GaveUp(states, events, n - 1, fd)
    case Wakeup(popped) => !AnyAddressed(popped, fd) && GaveUp(states, events, n - 1, fd)
  }

  lemma {:induction false} PushManyStall(s: Channels, uniqids: seq<nat>, frame: seq<byte>, fd: int)
    requires fd in s
    ensures PushMany(s, uniqids, frame)[fd].stalled == (s[fd].stalled && !AmongFds(uniqids, fd))
    ensures PushMany(s, uniqids, frame)[fd].posted == s[fd].posted
    decreases |uniqids|
  {
    if uniqids != [] {
      PushManyStall(Push(s, uniqids[0], frame), uniqids[1..], frame, fd);
    }
  }

  lemma {:induction false} DeliverStall(s: Channels, popped: seq<Outgoing>, fd: int)
    requires fd in s
    ensures Deliver(s, popped)[fd].stalled == (s[fd].stalled && !AnyAddressed(popped, fd))
    ensures Deliver(s, popped)[fd].posted == s[fd].posted
    decreases |popped|
  {
    if popped != [] {
      var m := popped[0];
      if m.ToMany? {
        PushManyStall(s, m.uniqids, m.frame, fd);
      }
      DeliverStall(PushOne(s, m), popped[1..], fd);
    }
  }

  lemma {:induction false} StalledIffGaveUp(states: seq<Channels>, events: seq<Event>, n: nat, fd: int)
    requires Run(states, events) && states[0] == map[] && n < |states| && fd in states[n]
    ensures states[n][fd].stalled <==> GaveUp(states, events, n, fd)
  {
    if n > 0 {
      var s, e := states[n - 1], events[n - 1];
      assert Step(s, e, states[n]);
      if fd in s {
        StalledIffGaveUp(states, events, n - 1, fd);
        if e.Wakeup? {
          DeliverStall(s, e.popped, fd);
        }
      }
    }
  }

  /** In every run and for every channel: the watcher waits for writability exactly while bytes
      wait, if and only if the last handler that set it did not give up on a `send` that returned 0;
      and if it did, bytes wait and the watcher does not. */
  lemma ArmedIffNotGivenUp(states: seq<Channels>, events: seq<Event>, n: nat, fd: int)
    requires Run(states, events) && states[0] == map[] && n < |states| && fd in states[n]
    ensures var c := states[n][fd];
      && ((c.armed <==> c.out != []) <==> !GaveUp(states, events, n, fd))
      && (c.out != [] && !c.armed <==> GaveUp(states, events, n, fd))
  {
    EveryRunIsConsistent(states, events, n);
    StalledIffGaveUp(states, events, n, fd);
  }

  /** As long as no `send` returns 0, a watcher waits for writability exactly while bytes wait. */
  lemma {:induction false} NoStallWithoutZeroSend(states: seq<Channels>, events: seq<Event>, n: nat, fd: int)
    requires Run(states, events) && states[0] == map[] && n < |states| && fd in states[n]
    requires forall i | 0 <= i < n :: events[i].Writable? ==> events[i].last != 0
    ensures states[n][fd].armed <==> states[n][fd].out != []
  {
    NeverGaveUp(states, events, n, fd);
    ArmedIffNotGivenUp(states, events, n, fd);
  }

  lemma {:induction false} NeverGaveUp(states: seq<Channels>, events: seq<Event>, n: nat, fd: int)
    requires n <= |events| && n < |states|
    requires forall i | 0 <= i < n :: events[i].Writable? ==> events[i].last != 0
    ensures !GaveUp(states, events, n, fd)
  {
    if n > 0 {
      NeverGaveUp(states, events, n - 1, fd);
    }
  }

  /** A `send` that returns 0 leaves bytes waiting behind a watcher that does not wait for
      writability. */
  lemma ZeroSendStalls(c: ChannelState, wire: seq<byte>, d: ChannelState)
    requires Consistent(c) && Sent(c, wire, 0, d)
    ensures Consistent(d) && d.out != [] && !d.armed
  {
    SentKeeps(c, wire, 0, d);
  }

  /** A run that stalls: a connection, a frame for it, and a `send` that returns 0. */
  lemma StalledRun(frame: seq<byte>) returns (states: seq<Channels>, events: seq<Event>)
    requires frame != []
    ensures Run(states, events) && states[0] == map[] && |events| == 3
    ensures 1 in states[3] && states[3][1].out == frame && !states[3][1].armed
  {
    var popped := [ToOne(1, frame)];
    var s1: Channels := map[1 := ACCEPTED];
    var s2 := Push(s1, 1, frame);
    assert Deliver(s2, popped[1..]) == s2 && PushOne(s1, popped[0]) == s2;
    assert [] + frame == frame;
    var c := s2[1];
    assert c.out == frame;
    var d := c.(armed := false, stalled := true);
    var s3 := s2[1 := d];
    assert Sent(c, [], 0, d);
    states := [map[], s1, s2, s3];
    events := [Accept(1), Wakeup(popped), Writable(1, [], 0)];
    assert Step(map[], events[0], s1) && Step(s1, events[1], s2) && Step(s2, events[2], s3);
  }

  // ----- what reaches the workers -----

  /** Everything posted by the events from number `a` to number `n`. */
  ghost function Queue(states: seq<Channels>, events: seq<Event>, a: nat, n: nat): seq<Posted>
    requires a <= n <= |events| && n < |states|
    decreases n
  {
    if a == n then [] else Queue(states, events, a, n - 1) + Posts(states[n - 1], events[n - 1])
  }

  /** The packages in it that carry an id. */
  function PackagesOf(posts: seq<Posted>, uniqid: nat): seq<Pdu> {
    if posts == [] then [] else PackageOf(posts[0], uniqid) + PackagesOf(posts[1..], uniqid)
  }

  function PackageOf(post: Posted, uniqid: nat): seq<Pdu> {
    if post.PostedPack? && post.uniqid == uniqid then [post.package] else []
  }

  /** The number of the event that accepted the channel. */
  ghost function AcceptedAt(states: seq<Channels>, n: nat, fd: int): (a: nat)
    requires n < |states|
    ensures a <= n
    decreases n
  {
    if n == 0 then 0 else if fd in states[n - 1] then AcceptedAt(states, n - 1, fd) else n - 1
  }

  lemma PackagesOfMore(p: Posted, ps: seq<Posted>, uniqid: nat)
    ensures PackagesOf([p] + ps, uniqid) == PackageOf(p, uniqid) + PackagesOf(ps, uniqid)
  {
    assert ([p] + ps)[1..] == ps;
  }

  lemma {:induction false} PackagesAppend(ps: seq<Posted>, qs: seq<Posted>, uniqid: nat)
    ensures PackagesOf(ps + qs, uniqid) == PackagesOf(ps, uniqid) + PackagesOf(qs, uniqid)
  {
    if ps == [] {
      assert ps + qs == qs;
    } else {
      hide PackageOf, PackagesOf;
      PackagesAppend(ps[1..], qs, uniqid);
      PackagesOfMore(ps[0], ps[1..], uniqid);
      PackagesOfMore(ps[0], ps[1..] + qs, uniqid);
      assert ps == [ps[0]] + ps[1..];
      assert ps + qs == [ps[0]] + (ps[1..] + qs);
      Regroup(PackageOf(ps[0], uniqid), PackagesOf(ps[1..], uniqid), PackagesOf(qs, uniqid));
    }
  }

  lemma {:induction false} PackagesOfPacks(fd: int, ps: seq<Pdu>, uniqid: nat)
    ensures PackagesOf(Packs(fd, ps), uniqid) == if UniqidOf(fd) == uniqid then ps else []
  {
    if ps != [] {
      PackagesOfPacks(fd, ps[1..], uniqid);
      assert Packs(fd, ps)[1..] == Packs(fd, ps[1..]);
    }
  }

  /** Descriptors are values of `int`. */
  ghost predicate Descriptors(events: seq<Event>) {
    forall i | 0 <= i < |events| && !events[i].Wakeup? :: -0x8000_0000 <= events[i].fd < 0x8000_0000
  }

  lemma IdsOfDescriptors(f: int, g: int)
    requires -0x8000_0000 <= f < 0x8000_0000 && -0x8000_0000 <= g < 0x8000_0000
    ensures UniqidOf(f) == UniqidOf(g) <==> f == g
  {
  }

  /** The packages of a channel are touched by nothing but its own reads. */
  lemma PostedByStep(s: Channels, e: Event, t: Channels, fd: int)
    requires Step(s, e, t) && fd in s && fd in t
    ensures t[fd].posted == s[fd].posted + if e.Data? && e.fd == fd then Cut(s[fd].inb + e.chunk) else []
  {
    if e.Wakeup? {
      DeliverStall(s, e.popped, fd);
    }
  }

  lemma {:induction false} ChannelsHaveDescriptors(states: seq<Channels>, events: seq<Event>, n: nat, fd: int)
    requires Run(states, events) && states[0] == map[] && n < |states| && fd in states[n] && Descriptors(events)
    ensures -0x8000_0000 <= fd < 0x8000_0000
  {
    if n > 0 {
      assert Step(states[n - 1], events[n - 1], states[n]);
      if fd in states[n - 1] {
        ChannelsHaveDescriptors(states, events, n - 1, fd);
      }
    }
  }

  /** In every run, what has been pushed for the workers under a channel's id since the channel was
      accepted are exactly the packages of its history, in order. */
  lemma {:induction false} QueueHoldsPosted(states: seq<Channels>, events: seq<Event>, n: nat, fd: int)
    requires Run(states, events) && states[0] == map[] && n < |states| && fd in states[n] && Descriptors(events)
    ensures PackagesOf(Queue(states, events, AcceptedAt(states, n, fd), n), UniqidOf(fd)) == states[n][fd].posted
  {
    hide Step, UniqidOf, Cut, Packs;
    var s, e, u := states[n - 1], events[n - 1], UniqidOf(fd);
    assert Step(s, e, states[n]);
    if fd in s {
      var a := AcceptedAt(states, n - 1, fd);
      QueueHoldsPosted(states, events, n - 1, fd);
      PostedByStep(s, e, states[n], fd);
      PackagesAppend(Queue(states, events, a, n - 1), Posts(s, e), u);
      ChannelsHaveDescriptors(states, events, n, fd);
      PostsForChannel(s, e, fd);
    } else {
      AcceptedNow(s, e, states[n], fd);
    }
  }

  lemma PostsForChannel(s: Channels, e: Event, fd: int)
    requires fd in s && -0x8000_0000 <= fd < 0x8000_0000
    requires e.Wakeup? || -0x8000_0000 <= e.fd < 0x8000_0000
    ensures PackagesOf(Posts(s, e), UniqidOf(fd)) == if e.Data? && e.fd == fd then Cut(s[fd].inb + e.chunk) else []
  {
    hide UniqidOf, Cut;
    if e.Data? && e.fd in s {
      IdsOfDescriptors(fd, e.fd);
      PackagesOfPacks(e.fd, Cut(s[e.fd].inb + e.chunk), UniqidOf(fd));
    }
  }

  lemma AcceptedNow(s: Channels, e: Event, t: Channels, fd: int)
    requires Step(s, e, t) && fd !in s && fd in t
    ensures e == Accept(fd) && Posts(s, e) == [] && t[fd].posted == []
  {
  }

  /** A client that sent messages whose header fields decode to themselves: what the workers find
      in the queue under its id are exactly those messages, in order, however its bytes arrived and
      whatever the other channels did. */
  lemma ClientMessagesReachWorkers(states: seq<Channels>, events: seq<Event>, n: nat, fd: int, ms: seq<Message>)
    requires Run(states, events) && states[0] == map[] && n < |states| && fd in states[n] && Descriptors(events)
    requires AllSendable(ms) && AllHeadersDecode(ms) && states[n][fd].received == Stream(ms)
    ensures AsMessages(PackagesOf(Queue(states, events, AcceptedAt(states, n, fd), n), UniqidOf(fd))) == ms
  {
    hide Queue, AcceptedAt;
    QueueHoldsPosted(states, events, n, fd);
    ClientMessagesArePosted(states, events, n, fd, ms);
  }

  /** A client that sent messages whose header fields decode to themselves has had exactly those
      posted, in order, however its bytes arrived and whatever the other channels did. */
  lemma ClientMessagesArePosted(states: seq<Channels>, events: seq<Event>, n: nat, fd: int, ms: seq<Message>)
    requires Run(states, events) && states[0] == map[] && n < |states| && fd in states[n]
    requires AllSendable(ms) && AllHeadersDecode(ms) && states[n][fd].received == Stream(ms)
    ensures AsMessages(states[n][fd].posted) == ms && states[n][fd].inb == []
  {
    EveryRunIsConsistent(states, events, n);
    MessagesArrive(ms);
  }

  /** While it is still sending them, if none is longer than 3073 bytes, its in-buffer always has
      room for another read. */
  lemma ClientMessagesFit(states: seq<Channels>, events: seq<Event>, n: nat, fd: int, ms: seq<Message>)
    requires Run(states, events) && states[0] == map[] && n < |states| && fd in states[n]
    requires AllSendable(ms) && AllLengthsDecode(ms) && states[n][fd].received <= Stream(ms)
    requires forall i | 0 <= i < |ms| :: ms[i].TotalLength() <= 3073
    ensures |states[n][fd].inb| + READ_BUF_SIZE <= MAX_BUF_SIZE
  {
    hide Rest, Cut;
    EveryRunIsConsistent(states, events, n);
    FitsIffShort(ms);
    var s := states[n][fd].received;
    assert s == Stream(ms)[..|s|];
  }

  // ----- the way back -----

  lemma DescriptorOfId(fd: int)
    requires -0x8000_0000 <= fd < 0x8000_0000
    ensures AsInt32(UniqidOf(fd)) == fd
  {
    ConversionsUndo(fd, 0);
  }

  /** Whatever a handler has posted for a descriptor, a frame that the workers send to its id goes to
      the channel under this descriptor and to no other; it is dropped if there is none. */
  lemma AnswerReachesSender(
    states: seq<Channels>, events: seq<Event>, i: nat, post: Posted, j: nat, frame: seq<byte>)
    requires Run(states, events) && states[0] == map[] && Descriptors(events) && frame != []
    requires i < j < |events| && (events[i].Data? || events[i].Closed?) && post in Posts(states[i], events[i])
    requires events[j] == Wakeup([ToOne(post.uniqid, frame)])
    ensures var fd, s, t := events[i].fd, states[j], states[j + 1];
      && t.Keys == s.Keys
      && (fd in s ==> Queued(s[fd], frame, t[fd]))
      && forall g | g in s && g != fd :: t[g] == s[g]
  {
    hide Cut, AfterPush, Queued;
    var fd, s := events[i].fd, states[j];
    assert post.uniqid == UniqidOf(fd);
    DescriptorOfId(fd);
    var popped := [ToOne(post.uniqid, frame)];
    assert Step(s, events[j], states[j + 1]);
    assert popped[1..] == [] && Deliver(s, popped) == PushOne(s, popped[0]) == Push(s, post.uniqid, frame);
    if fd in s {
      PushedIsQueued(s[fd], frame);
    }
  }

  lemma PushedIsQueued(c: ChannelState, frame: seq<byte>)
    requires frame != []
    ensures Queued(c, frame, AfterPush(c, frame))
  {
  }

  /** Of two moments at which there is a channel under a descriptor: it is the same connection if and
      only if it has not been closed in between. */
  lemma {:induction false} SameConnectionIff(states: seq<Channels>, events: seq<Event>, i: nat, j: nat, fd: int)
    requires Run(states, events) && i <= j < |states| && fd in states[i] && fd in states[j]
    ensures AcceptedAt(states, j, fd) == AcceptedAt(states, i, fd) <==>
      forall k | i <= k < j :: events[k] != Closed(fd)
    decreases j
  {
    if i < j {
      assert Step(states[j - 1], events[j - 1], states[j]);
      if fd in states[j - 1] {
        SameConnectionIff(states, events, i, j - 1, fd);
      } else {
        var k := WasClosed(states, events, i, j - 1, fd);
      }
    }
  }

  lemma {:induction false} WasClosed(states: seq<Channels>, events: seq<Event>, i: nat, j: nat, fd: int)
    returns (k: nat)
    requires Run(states, events) && i <= j < |states| && fd in states[i] && fd !in states[j]
    ensures i <= k < j && events[k] == Closed(fd)
    decreases j
  {
    assert i < j && Step(states[j - 1], events[j - 1], states[j]);
    if fd in states[j - 1] {
      k := j - 1;
    } else {
      k := WasClosed(states, events, i, j - 1, fd);
    }
  }

  /** An answer that comes too late: a client sends a message and closes its connection, another one is
      accepted under the same descriptor and gets the answer. */
  lemma StaleAnswer(fd: int, m: Message, frame: seq<byte>) returns (states: seq<Channels>, events: seq<Event>)
    requires -0x8000_0000 <= fd < 0x8000_0000 && Sendable(m) && HeaderDecodes(m) && frame != []
    ensures var u := UniqidOf(fd);
      && events == [Accept(fd), Data(fd, Frame(m)), Closed(fd), Accept(fd), Wakeup([ToOne(u, frame)])]
      && Run(states, events) && states[0] == map[]
      && Posts(states[1], events[1]) == [PostedPack(u, Decoded(m))]
      && fd in states[5] && states[5][fd].out == frame && states[5][fd].received == []
  {
    hide Cut, Rest, Frame, AfterPush, Queued;
    var u := UniqidOf(fd);
    DescriptorOfId(fd);
    OneFrame(m);
    var s1: Channels := map[fd := ACCEPTED];
    var s2 := s1[fd := AfterData(ACCEPTED, Frame(m))];
    var s3: Channels := map[];
    var s5 := Push(s1, u, frame);
    var popped := [ToOne(u, frame)];
    assert s2 - {fd} == s3 && s3[fd := ACCEPTED] == s1 && popped[1..] == [] && Deliver(s1, popped) == s5;
    states := [map[], s1, s2, s3, s1, s5];
    events := [Accept(fd), Data(fd, Frame(m)), Closed(fd), Accept(fd), Wakeup(popped)];
    assert Step(s3, events[0], s1) && Step(s1, events[1], s2) && Step(s2, events[2], s3);
    assert Step(s3, events[3], s1) && Step(s1, events[4], s5);
    PushedToEmpty(frame);
  }

  lemma OneFrame(m: Message)
    requires Sendable(m) && HeaderDecodes(m)
    ensures Cut([] + Frame(m)) == [Decoded(m)]
  {
    hide Frame, Decoded, Rest;
    assert [] + Frame(m) == Frame(m) + [];
    FrameIsFirst(m, []);
  }

  lemma PushedToEmpty(frame: seq<byte>)
    ensures AfterPush(ACCEPTED, frame).out == frame && AfterPush(ACCEPTED, frame).received == []
  {
  }

  // ----- closed connections -----

  /** The closes in it that carry an id. */
  function ClosesOf(posts: seq<Posted>, uniqid: nat): nat {
    if posts == [] then 0
    else (if posts[0] == PostedClose(uniqid) then 1 else 0) + ClosesOf(posts[1..], uniqid)
  }

  lemma {:induction false} ClosesAppend(ps: seq<Posted>, qs: seq<Posted>, uniqid: nat)
    ensures ClosesOf(ps + qs, uniqid) == ClosesOf(ps, uniqid) + ClosesOf(qs, uniqid)
  {
    if ps == [] {
      assert ps + qs == qs;
    } else {
      ClosesAppend(ps[1..], qs, uniqid);
      assert (ps + qs)[1..] == ps[1..] + qs;
    }
  }

  lemma {:induction false} PacksCloseNothing(fd: int, ps: seq<Pdu>, uniqid: nat)
    ensures ClosesOf(Packs(fd, ps), uniqid) == 0
  {
    if ps != [] {
      PacksCloseNothing(fd, ps[1..], uniqid);
      assert Packs(fd, ps)[1..] == Packs(fd, ps[1..]);
    }
  }

  /** The connections accepted under a descriptor by the first `n` events. */
  ghost function Connections(states: seq<Channels>, events: seq<Event>, n: nat, fd: int): nat
    requires n <= |events| && n < |states|
  {
    if n == 0 then 0
    else Connections(states, events, n - 1, fd)
         + (if events[n - 1] == Accept(fd) && fd !in states[n - 1] then 1 else 0)
  }

  lemma ClosesOfStep(s: Channels, e: Event, t: Channels, fd: int)
    requires Step(s, e, t) && -0x8000_0000 <= fd < 0x8000_0000
    requires e.Wakeup? || -0x8000_0000 <= e.fd < 0x8000_0000
    ensures ClosesOf(Posts(s, e), UniqidOf(fd)) + (if fd in t then 1 else 0) ==
      (if fd in s then 1 else 0) + (if e == Accept(fd) && fd !in s then 1 else 0)
  {
    hide UniqidOf, Cut, Packs;
    if e.Data? && e.fd in s {
      PacksCloseNothing(e.fd, Cut(s[e.fd].inb + e.chunk), UniqidOf(fd));
    } else if e.Closed? {
      IdsOfDescriptors(fd, e.fd);
      assert [PostedClose(UniqidOf(e.fd))][1..] == [];
    }
  }

  /** In every run the workers are told of the end of every connection exactly once: closes and
      connections still there make up the connections accepted. */
  lemma {:induction false} EveryCloseIsPosted(states: seq<Channels>, events: seq<Event>, n: nat, fd: int)
    requires Run(states, events) && states[0] == map[] && n < |states| && Descriptors(events)
    requires -0x8000_0000 <= fd < 0x8000_0000
    ensures ClosesOf(Queue(states, events, 0, n), UniqidOf(fd)) + (if fd in states[n] then 1 else 0) ==
      Connections(states, events, n, fd)
  {
    hide Step, UniqidOf;
    if n > 0 {
      var s, e := states[n - 1], events[n - 1];
      EveryCloseIsPosted(states, events, n - 1, fd);
      ClosesAppend(Queue(states, events, 0, n - 1), Posts(s, e), UniqidOf(fd));
      ClosesOfStep(s, e, states[n], fd);
    }
  }

  // ----- routing -----

  /** The frames a popped list holds for one channel. */
  function RoutedMany(uniqids: seq<nat>, frame: seq<byte>, fd: int): seq<byte>
    decreases |uniqids|
  {
    if uniqids == [] then []
    else (if AsInt32(uniqids[0]) == fd then frame else []) + RoutedMany(uniqids[1..], frame, fd)
  }

  function RoutedOne(m: Outgoing, fd: int): seq<byte> {
    match m
    case ToOne(uniqid, frame) => if AsInt32(uniqid) == fd then frame else []
    case ToMany(uniqids, frame) => RoutedMany(uniqids, frame, fd)
    case OtherType => []
  }

  function Routed(popped: seq<Outgoing>, fd: int): seq<byte>
    decreases |popped|
  {
    if popped == [] then [] else RoutedOne(popped[0], fd) + Routed(popped[1..], fd)
  }

  /** `d` is `c` with these bytes queued; the watcher is only touched if there are any. */
  ghost predicate Queued(c: ChannelState, bytes: seq<byte>, d: ChannelState) {
    && d.out == c.out + bytes && d.queued == c.queued + bytes
    && d.inb == c.inb && d.received == c.received && d.posted == c.posted && d.sent == c.sent
    && (if bytes == [] then d.armed == c.armed && d.stalled == c.stalled else d.armed && !d.stalled)
  }

  lemma QueuedTwice(c: ChannelState, b1: seq<byte>, d: ChannelState, b2: seq<byte>, e: ChannelState)
    requires Queued(c, b1, d) && Queued(d, b2, e)
    ensures Queued(c, b1 + b2, e)
  {
    assert c.out + b1 + b2 == c.out + (b1 + b2);
    assert c.queued + b1 + b2 == c.queued + (b1 + b2);
    if b2 == [] {
      assert b1 + b2 == b1;
    }
  }

  lemma QueuedNothing(c: ChannelState)
    ensures Queued(c, [], c)
  {
  }

  lemma {:induction false} PushManyRoutes(s: Channels, uniqids: seq<nat>, frame: seq<byte>, fd: int)
    requires fd in s && frame != []
    ensures Queued(s[fd], RoutedMany(uniqids, frame, fd), PushMany(s, uniqids, frame)[fd])
    decreases |uniqids|
  {
    if uniqids == [] {
      QueuedNothing(s[fd]);
    } else {
      var t := Push(s, uniqids[0], frame);
      var first := if AsInt32(uniqids[0]) == fd then frame else [];
      assert Queued(s[fd], first, t[fd]);
      hide Queued, Push;
      PushManyRoutes(t, uniqids[1..], frame, fd);
      QueuedTwice(s[fd], first, t[fd], RoutedMany(uniqids[1..], frame, fd), PushMany(s, uniqids, frame)[fd]);
    }
  }

  lemma PushOneRoutes(s: Channels, m: Outgoing, fd: int)
    requires fd in s && HasFrame(m)
    ensures Queued(s[fd], RoutedOne(m, fd), PushOne(s, m)[fd])
  {
    if m.ToMany? {
      PushManyRoutes(s, m.uniqids, m.frame, fd);
    }
  }

  /** A wake-up appends to each channel's out-buffer exactly the frames popped for it, in order,
      and arms its watcher exactly if there were any; frames for unknown channels are dropped. */
  lemma {:induction false} DeliverRoutes(s: Channels, popped: seq<Outgoing>, fd: int)
    requires fd in s && forall i | 0 <= i < |popped| :: HasFrame(popped[i])
    ensures Queued(s[fd], Routed(popped, fd), Deliver(s, popped)[fd])
    decreases |popped|
  {
    hide Queued, PushOne, RoutedOne;
    if popped == [] {
      QueuedNothing(s[fd]);
    } else {
      var t := PushOne(s, popped[0]);
      PushOneRoutes(s, popped[0], fd);
      DeliverRoutes(t, popped[1..], fd);
      QueuedTwice(s[fd], RoutedOne(popped[0], fd), t[fd], Routed(popped[1..], fd), Deliver(s, popped)[fd]);
    }
  }

  /** Everything popped fits the out-buffers. */
  ghost predicate Room(s: Channels, popped: seq<Outgoing>) {
    forall fd | fd in s :: |s[fd].out| + |Routed(popped, fd)| <= MAX_BUF_SIZE
  }

  ghost predicate RoomMany(s: Channels, uniqids: seq<nat>, frame: seq<byte>) {
    forall fd | fd in s :: |s[fd].out| + |RoutedMany(uniqids, frame, fd)| <= MAX_BUF_SIZE
  }

  ghost predicate HasFrame(m: Outgoing) {
    m.OtherType? || m.frame != []
  }

  lemma RoomForFirst(s: Channels, popped: seq<Outgoing>)
    requires popped != [] && Room(s, popped) && HasFrame(popped[0])
    ensures popped[0].ToMany? ==> RoomMany(s, popped[0].uniqids, popped[0].frame)
    ensures popped[0].ToOne? ==> RoomMany(s, [popped[0].uniqid], popped[0].frame)
    ensures Room(PushOne(s, popped[0]), popped[1..])
  {
    var t := PushOne(s, popped[0]);
    forall fd | fd in s
      ensures |t[fd].out| + |Routed(popped[1..], fd)| <= MAX_BUF_SIZE
      ensures |s[fd].out| + |RoutedOne(popped[0], fd)| <= MAX_BUF_SIZE
      ensures popped[0].ToOne? ==> RoutedMany([popped[0].uniqid], popped[0].frame, fd) == RoutedOne(popped[0], fd)
    {
      assert |s[fd].out| + |Routed(popped, fd)| <= MAX_BUF_SIZE;
      PushOneRoutes(s, popped[0], fd);
    }
  }

  lemma RoomForFirstOfMany(s: Channels, uniqids: seq<nat>, frame: seq<byte>)
    requires uniqids != [] && RoomMany(s, uniqids, frame)
    ensures var fd := AsInt32(uniqids[0]); fd in s ==> |s[fd].out| + |frame| <= MAX_BUF_SIZE
    ensures RoomMany(Push(s, uniqids[0], frame), uniqids[1..], frame)
  {
    var t := Push(s, uniqids[0], frame);
    forall fd | fd in s
      ensures |t[fd].out| + |RoutedMany(uniqids[1..], frame, fd)| <= MAX_BUF_SIZE
      ensures fd == AsInt32(uniqids[0]) ==> |s[fd].out| + |frame| <= MAX_BUF_SIZE
    {
      assert |s[fd].out| + |RoutedMany(uniqids, frame, fd)| <= MAX_BUF_SIZE;
    }
  }
}

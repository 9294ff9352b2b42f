/** Sessions and players: `LoginMgr` with the maps of `ClientProxyManager` and `PlayerMgr`. */
module LoginMgr {
  datatype ClientProxy = ClientProxy(sockfd: int, uniqid: int)

  /** A player object, known by its number, and the connection it writes to. */
  datatype Player = Player(number: nat, uniqid: int, proxy: ClientProxy)

  datatype Search = NotFound | Found(proxy: ClientProxy)

  /** What is sent to a client. */
  datatype Reply = Created(sockfd: int) | LoginOk(sockfd: int) | LoginFailed(sockfd: int)

  /** The sessions by socket, the players in memory by id, the players whose data are being loaded,
      the replies sent, the players destroyed and thereby saved, and the number of player objects
      made so far. */
  datatype State = State(
    clients: map<int, ClientProxy>, players: map<int, Player>, pending: seq<Player>,
    replies: seq<Reply>, saved: seq<Player>, made: nat)

  const INITIAL := State(map[], map[], [], [], [], 0)

  /** The results `get_client_proxy_by_uniqid` can have, whatever the order of its iteration. */
  ghost predicate FoundBy(clients: map<int, ClientProxy>, uniqid: int, r: Search) {
    match r
    case NotFound => forall fd | fd in clients :: clients[fd].uniqid != uniqid
    case Found(proxy) => proxy.uniqid == uniqid && exists fd | fd in clients :: clients[fd] == proxy
  }

  /** `create_player`, `login_player`, `login_out_player` or `player_sockfd_close`, and the reply to
      one of the pending loads, with what the searches found. */
  datatype Event =
    | Create(sockfd: int, uniqid: int)
    | Login(sockfd: int, uniqid: int, found: Search)
    | Leave(sockfd: int)
    | LoadReply(i: nat, loaded: bool, found: Search)

  function Without(s: State, proxy: ClientProxy): State {
    s.(clients := s.clients - {proxy.sockfd})
  }

  function With(s: State, proxy: ClientProxy): State {
    s.(clients := s.clients[proxy.sockfd := proxy])
  }

  /** `destroy` and `DelObj`. */
  function Discarded(s: State, uniqid: int): State {
    if uniqid in s.players then s.(players := s.players - {uniqid}, saved := s.saved + [s.players[uniqid]]) else s
  }

  /** `_login_callback` with a player. */
  function Entered(s: State, player: Player): State {
    s.(players := s.players[player.uniqid := player], replies := s.replies + [LoginOk(player.proxy.sockfd)])
  }

  function AfterCreate(s: State, sockfd: int, uniqid: int): State {
    var proxy := ClientProxy(sockfd, uniqid);
    var t := With(s, proxy);
    if uniqid in s.players then t.(replies := t.replies + [Created(s.players[uniqid].proxy.sockfd)])
    else
      t.(players := t.players[uniqid := Player(t.made, uniqid, proxy)], made := t.made + 1,
         replies := t.replies + [Created(sockfd)])
  }

  function AfterLogin(s: State, sockfd: int, uniqid: int, found: Search): State {
    var t := if found.Found? then Discarded(Without(s, found.proxy), uniqid) else s;
    var proxy := ClientProxy(sockfd, uniqid);
    var u := With(t, proxy);
    if uniqid in u.players then Entered(u, u.players[uniqid])
    else u.(pending := u.pending + [Player(u.made, uniqid, proxy)], made := u.made + 1)
  }

  function AfterLeave(s: State, sockfd: int): State {
    if sockfd in s.clients then Discarded(Without(s, s.clients[sockfd]), s.clients[sockfd].uniqid) else s
  }

  function AfterLoadReply(s: State, i: nat, loaded: bool, found: Search): State
    requires i < |s.pending|
  {
    var t := s.(pending := s.pending[..i] + s.pending[i + 1..]);
    if loaded then Entered(t, s.pending[i])
    else if found.Found? then Without(t, found.proxy).(replies := t.replies + [LoginFailed(found.proxy.sockfd)])
    else t
  }

  ghost predicate Step(s: State, e: Event, t: State) {
    match e
    case Create(sockfd, uniqid) => t == AfterCreate(s, sockfd, uniqid)
    case Login(sockfd, uniqid, found) => FoundBy(s.clients, uniqid, found) && t == AfterLogin(s, sockfd, uniqid, found)
    case Leave(sockfd) => t == AfterLeave(s, sockfd)
    case LoadReply(i, loaded, found) =>
      && i < |s.pending| && (!loaded ==> FoundBy(s.clients, s.pending[i].uniqid, found))
      && t == AfterLoadReply(s, i, loaded, found)
  }

  class ClientProxyManager {
    var clientMap: map<int, ClientProxy>

    constructor ()
      ensures clientMap == map[]
    {
      clientMap := map[];
    }

    method SetClientProxy(proxy: ClientProxy)
      modifies this
      ensures clientMap == old(clientMap)[proxy.sockfd := proxy]
    {
      clientMap := clientMap[proxy.sockfd := proxy];
    }

    method RemoveClientProxy(proxy: ClientProxy)
      modifies this
      ensures clientMap == old(clientMap) - {proxy.sockfd}
    {
      if proxy.sockfd in clientMap {
        clientMap := clientMap - {proxy.sockfd};
      }
    }

    /** Searches in the order of the iteration, which is not determined. */
    method GetClientProxyByUniqid(uniqid: int) returns (r: Search)
      ensures FoundBy(clientMap, uniqid, r)
    {
      var todo := clientMap.Items;
      while todo != {}
        invariant todo <= clientMap.Items
        invariant forall fd | fd in clientMap && (fd, clientMap[fd]) !in todo :: clientMap[fd].uniqid != uniqid
        decreases todo
      {
        var item :| item in todo;
        var (fd, proxy) := item;
        assert fd in clientMap.Keys && clientMap[fd] == proxy;
        if proxy.uniqid == uniqid {
          return Found(proxy);
        }
        todo := todo - {item};
      }
      r := NotFound;
    }
  }

  class LoginMgr {
    const proxies: ClientProxyManager
    /** `PlayerMgr`. */
    var saveObjs: map<int, Player>
    var pending: seq<Player>
    var replies: seq<Reply>
    var saved: seq<Player>
    /** The number of player objects made so far. */
    var made: nat

    ghost function Value(): State
      reads this, proxies
    {
      State(proxies.clientMap, saveObjs, pending, replies, saved, made)
    }

    constructor ()
      ensures Value() == INITIAL && fresh(proxies)
    {
      proxies := new ClientProxyManager();
      saveObjs, pending, replies, saved, made := map[], [], [], [], 0;
    }

    /** `player.destroy()` and `DelObj`. */
    method Discard(uniqid: int)
      modifies this
      ensures Value() == Discarded(old(Value()), uniqid)
    {
      if uniqid in saveObjs {
        saved := saved + [saveObjs[uniqid]];
        saveObjs := saveObjs - {uniqid};
      }
    }

    method CreatePlayer(sockfd: int, uniqid: int)
      modifies this, proxies
      ensures Step(old(Value()), Create(sockfd, uniqid), Value())
    {
      var proxy := ClientProxy(sockfd, uniqid);
      proxies.SetClientProxy(proxy);
      if uniqid !in saveObjs {
        saveObjs := saveObjs[uniqid := Player(made, uniqid, proxy)];
        made := made + 1;
      }
      replies := replies + [Created(saveObjs[uniqid].proxy.sockfd)];
    }

    method LoginCallback(player: Player)
      modifies this
      ensures Value() == Entered(old(Value()), player)
    {
      saveObjs := saveObjs[player.uniqid := player];
      replies := replies + [LoginOk(player.proxy.sockfd)];
    }

    method KickPlayer(uniqid: int) returns (found: Search)
      requires exists fd | fd in proxies.clientMap :: proxies.clientMap[fd].uniqid == uniqid
      modifies this, proxies
      ensures found.Found? && FoundBy(old(proxies.clientMap), uniqid, found)
      ensures Value() == Discarded(Without(old(Value()), found.proxy), uniqid)
    {
      found := proxies.GetClientProxyByUniqid(uniqid);
      proxies.RemoveClientProxy(found.proxy);
      Discard(uniqid);
    }

    method LoginPlayer(sockfd: int, uniqid: int) returns (found: Search)
      modifies this, proxies
      ensures Step(old(Value()), Login(sockfd, uniqid, found), Value())
    {
      found := proxies.GetClientProxyByUniqid(uniqid);
      if found.Found? {
        found := KickPlayer(uniqid);
      }
      var proxy := ClientProxy(sockfd, uniqid);
      proxies.SetClientProxy(proxy);
      if uniqid in saveObjs {
        LoginCallback(saveObjs[uniqid]);
      } else {
        pending := pending + [Player(made, uniqid, proxy)];
        made := made + 1;
      }
    }

    /** `login_out_player` and `player_sockfd_close`. */
    method PlayerLeaves(sockfd: int)
      modifies this, proxies
      ensures Step(old(Value()), Leave(sockfd), Value())
    {
      if sockfd in proxies.clientMap {
        var proxy := proxies.clientMap[sockfd];
        proxies.RemoveClientProxy(proxy);
        Discard(proxy.uniqid);
      }
    }

    /** The reply to the load number `i`: the player's data, or nothing. */
    method OnLoadReply(i: nat, loaded: bool) returns (found: Search)
      requires i < |pending|
      modifies this, proxies
      ensures Step(old(Value()), LoadReply(i, loaded, found), Value())
    {
      found := NotFound;
      var player := pending[i];
      pending := pending[..i] + pending[i + 1..];
      if loaded {
        LoginCallback(player);
      } else {
        found := proxies.GetClientProxyByUniqid(player.uniqid);
        if found.Found? {
          replies := replies + [LoginFailed(found.proxy.sockfd)];
          proxies.RemoveClientProxy(found.proxy);
        }
      }
    }
  }

  // ----- what the handlers do -----

  /** A logout or a closed socket ends the session under the socket, and its player goes out of memory
      and is the one object saved; without a session it does nothing. */
  lemma LeaveEnds(s: State, sockfd: int, t: State)
    requires Step(s, Leave(sockfd), t)
    ensures if sockfd in s.clients then
        var id := s.clients[sockfd].uniqid;
        && (Keyed(s) ==> sockfd !in t.clients)
        && id !in t.players && t.saved == s.saved + (if id in s.players then [s.players[id]] else [])
      else t == s
    ensures forall fd | fd != sockfd && Keyed(s) ::
      (fd in t.clients <==> fd in s.clients) && (fd in t.clients ==> t.clients[fd] == s.clients[fd])
    ensures forall id | sockfd !in s.clients || id != s.clients[sockfd].uniqid ::
      (id in t.players <==> id in s.players) && (id in t.players ==> t.players[id] == s.players[id])
    ensures t.pending == s.pending && t.replies == s.replies && t.made == s.made
  {
  }

  /** A login opens a session under its socket. A session of the same id that it finds is ended, and
      the player in memory then saved and dropped; all other sessions and players stay. */
  lemma LoginKicks(s: State, e: Event, t: State)
    requires Keyed(s) && Step(s, e, t) && e.Login?
    ensures e.sockfd in t.clients && t.clients[e.sockfd] == ClientProxy(e.sockfd, e.uniqid)
    ensures e.found.Found? && e.found.proxy.sockfd != e.sockfd ==> e.found.proxy.sockfd !in t.clients
    ensures forall fd | fd != e.sockfd && !(e.found.Found? && fd == e.found.proxy.sockfd) ::
      (fd in t.clients <==> fd in s.clients) && (fd in t.clients ==> t.clients[fd] == s.clients[fd])
    ensures t.players == if e.found.Found? then s.players - {e.uniqid} else s.players
    ensures t.saved == s.saved + (if e.found.Found? && e.uniqid in s.players then [s.players[e.uniqid]] else [])
  {
    assert e.found.NotFound? && e.uniqid in s.players ==> s.players[e.uniqid := s.players[e.uniqid]] == s.players;
  }

  /** The objects saved are exactly those that go out of memory, unless loaded data replace one. */
  lemma SavedAreThoseDropped(s: State, e: Event, t: State)
    requires Keyed(s) && Step(s, e, t) && !Overwrites(s, e)
    ensures
      || (t.saved == s.saved && s.players.Keys <= t.players.Keys)
      || exists id | id in s.players && id !in t.players ::
        t.saved == s.saved + [s.players[id]] && s.players.Keys - {id} == t.players.Keys
    ensures forall id | id in s.players && id in t.players :: t.players[id] == s.players[id]
  {
    if e.Login? && e.found.Found? && e.uniqid in s.players {
      assert e.uniqid !in t.players;
    } else if e.Leave? && e.sockfd in s.clients && s.clients[e.sockfd].uniqid in s.players {
      assert s.clients[e.sockfd].uniqid !in t.players;
    }
  }

  /** The answer to a creation reaches the socket it came from if and only if the player is not in
      memory yet or was created or loaded for the same socket. */
  lemma CreatedReachesCallerIff(s: State, e: Event, t: State)
    requires Step(s, e, t) && e.Create?
    ensures t.replies == s.replies + [Created(e.sockfd)] <==>
      (e.uniqid in s.players ==> s.players[e.uniqid].proxy.sockfd == e.sockfd)
    ensures exists fd :: t.replies == s.replies + [Created(fd)]
    ensures e.uniqid in t.players
      && (e.uniqid !in s.players ==> t.players[e.uniqid].proxy == ClientProxy(e.sockfd, e.uniqid))
  {
    var fd := if e.uniqid in s.players then s.players[e.uniqid].proxy.sockfd else e.sockfd;
    assert t.replies == s.replies + [Created(fd)];
    assert t.replies[|s.replies|] == Created(fd);
    if t.replies == s.replies + [Created(e.sockfd)] {
      assert t.replies[|s.replies|] == Created(e.sockfd);
    }
  }

  // ----- one session per player -----

  ghost predicate Keyed(s: State) {
    && (forall fd | fd in s.clients :: s.clients[fd].sockfd == fd)
    && (forall id | id in s.players :: s.players[id].uniqid == id)
  }

  ghost predicate OneSessionEach(clients: map<int, ClientProxy>) {
    forall f, g | f in clients && g in clients && clients[f].uniqid == clients[g].uniqid :: f == g
  }

  /** The search by id does not depend on the order of its iteration exactly if no id has two
      sessions. */
  lemma SearchIsDeterminedIff(s: State)
    requires Keyed(s)
    ensures OneSessionEach(s.clients) <==>
      forall id, p, q | FoundBy(s.clients, id, p) && FoundBy(s.clients, id, q) :: p == q
  {
    if forall id, p, q | FoundBy(s.clients, id, p) && FoundBy(s.clients, id, q) :: p == q {
      forall f, g | f in s.clients && g in s.clients && s.clients[f].uniqid == s.clients[g].uniqid
        ensures f == g
      {
        var id := s.clients[f].uniqid;
        assert FoundBy(s.clients, id, Found(s.clients[f])) && FoundBy(s.clients, id, Found(s.clients[g]));
      }
    }
  }

  lemma StepKeepsKeyed(s: State, e: Event, t: State)
    requires Keyed(s) && Step(s, e, t)
    ensures Keyed(t)
  {
  }

  ghost predicate HasSession(s: State, uniqid: int) {
    exists fd | fd in s.clients :: s.clients[fd].uniqid == uniqid
  }

  ghost predicate HasSessionElsewhere(s: State, uniqid: int, sockfd: int) {
    exists fd | fd in s.clients && fd != sockfd :: s.clients[fd].uniqid == uniqid
  }

  /** What the callers of `create_player` must see to: no other socket has a session of this id. */
  ghost predicate Proper(s: State, e: Event) {
    e.Create? ==> !HasSessionElsewhere(s, e.uniqid, e.sockfd)
  }

  /** Logins, kicks, logouts, closed sockets and load replies keep one session per id; a creation
      does exactly if no other socket has a session of that id. */
  lemma OneSessionIff(s: State, e: Event, t: State)
    requires Keyed(s) && OneSessionEach(s.clients) && Step(s, e, t)
    ensures OneSessionEach(t.clients) <==> Proper(s, e)
  {
    if e.Create? && HasSessionElsewhere(s, e.uniqid, e.sockfd) {
      var fd :| fd in s.clients && fd != e.sockfd && s.clients[fd].uniqid == e.uniqid;
      assert t.clients[fd].uniqid == t.clients[e.sockfd].uniqid;
    }
  }

  // ----- sessions and players -----

  ghost predicate Loading(s: State, uniqid: int) {
    exists i | 0 <= i < |s.pending| :: s.pending[i].uniqid == uniqid
  }

  /** Behind every session there is a player in memory or on its way. */
  ghost predicate Backed(s: State) {
    forall fd | fd in s.clients :: s.clients[fd].uniqid in s.players || Loading(s, s.clients[fd].uniqid)
  }

  lemma LoadingAfterReply(s: State, i: nat, uniqid: int)
    requires i < |s.pending| && Loading(s, uniqid) && s.pending[i].uniqid != uniqid
    ensures Loading(s.(pending := s.pending[..i] + s.pending[i + 1..]), uniqid)
  {
    var j :| 0 <= j < |s.pending| && s.pending[j].uniqid == uniqid;
    var rest := s.pending[..i] + s.pending[i + 1..];
    assert rest[if j < i then j else j - 1] == s.pending[j];
  }

  lemma LoginKeepsBacked(s: State, e: Event, t: State)
    requires Keyed(s) && OneSessionEach(s.clients) && Backed(s) && Step(s, e, t) && e.Login?
    ensures Backed(t)
  {
    forall fd | fd in t.clients
      ensures t.clients[fd].uniqid in t.players || Loading(t, t.clients[fd].uniqid)
    {
      if fd == e.sockfd {
        if e.uniqid !in t.players {
          assert t.pending[|s.pending|].uniqid == e.uniqid;
        }
      } else {
        var id := s.clients[fd].uniqid;
        assert id != e.uniqid;
        if id !in s.players {
          var j :| 0 <= j < |s.pending| && s.pending[j].uniqid == id;
          assert t.pending[j].uniqid == id;
        }
      }
    }
  }

  lemma ReplyKeepsBacked(s: State, e: Event, t: State)
    requires Keyed(s) && OneSessionEach(s.clients) && Backed(s) && Step(s, e, t) && e.LoadReply?
    ensures Backed(t)
  {
    forall fd | fd in t.clients
      ensures t.clients[fd].uniqid in t.players || Loading(t, t.clients[fd].uniqid)
    {
      var id := s.clients[fd].uniqid;
      if id !in t.players {
        LoadingAfterReply(s, e.i, id);
        var u := s.(pending := s.pending[..e.i] + s.pending[e.i + 1..]);
        var j :| 0 <= j < |u.pending| && u.pending[j].uniqid == id;
        assert t.pending[j].uniqid == id;
      }
    }
  }

  lemma StepKeepsBacked(s: State, e: Event, t: State)
    requires Keyed(s) && OneSessionEach(s.clients) && Backed(s) && Step(s, e, t) && Proper(s, e)
    ensures Backed(t)
  {
    if e.Login? {
      LoginKeepsBacked(s, e, t);
    } else if e.LoadReply? {
      ReplyKeepsBacked(s, e, t);
    } else {
      assert t.pending == s.pending;
      forall fd | fd in t.clients
        ensures t.clients[fd].uniqid in t.players || Loading(t, t.clients[fd].uniqid)
      {
        if fd in s.clients && s.clients[fd].uniqid !in s.players {
          assert Loading(s, s.clients[fd].uniqid);
        }
      }
    }
  }

  ghost predicate Run(states: seq<State>, events: seq<Event>) {
    && |states| == |events| + 1 && states[0] == INITIAL
    && forall i | 0 <= i < |events| :: Step(states[i], events[i], states[i + 1])
  }

  /** One session per player: in every run of logins, kicks, logouts, closed sockets and load
      replies in any order, with creations for ids without a session, no id has two sessions, and
      behind every session there is a player in memory or a load under way. */
  lemma {:induction false} EveryRunHasOneSessionEach(states: seq<State>, events: seq<Event>, n: nat)
    requires Run(states, events) && n < |states|
    requires forall i | 0 <= i < n :: Proper(states[i], events[i])
    ensures Keyed(states[n]) && OneSessionEach(states[n].clients) && Backed(states[n])
  {
    if n > 0 {
      hide Step, Keyed, OneSessionEach, Backed, Proper;
      EveryRunHasOneSessionEach(states, events, n - 1);
      var s, e, t := states[n - 1], events[n - 1], states[n];
      StepKeepsKeyed(s, e, t);
      OneSessionIff(s, e, t);
      StepKeepsBacked(s, e, t);
    }
  }

  // ----- players without a session -----

  ghost predicate NoOrphans(s: State) {
    forall id | id in s.players :: HasSession(s, id)
  }

  /** The socket already has a session of another player who is in memory. */
  ghost predicate Displaces(s: State, sockfd: int, uniqid: int) {
    sockfd in s.clients && s.clients[sockfd].uniqid != uniqid && s.clients[sockfd].uniqid in s.players
  }

  /** The events after which no player in memory is without a session: a login or creation must not
      take over the socket of another player, loaded data must find their session still there, and
      a failed load must not end the session of a player in memory. */
  ghost predicate KeepsOwners(s: State, e: Event) {
    match e
    case Create(sockfd, uniqid) => !Displaces(s, sockfd, uniqid)
    case Login(sockfd, uniqid, found) => !Displaces(s, sockfd, uniqid)
    case Leave(sockfd) => true
    case LoadReply(i, loaded, found) =>
      i < |s.pending| && if loaded then HasSession(s, s.pending[i].uniqid) else s.pending[i].uniqid !in s.players
  }

  lemma NoOrphansIff(s: State, e: Event, t: State)
    requires Keyed(s) && OneSessionEach(s.clients) && NoOrphans(s) && Step(s, e, t)
    ensures NoOrphans(t) <==> KeepsOwners(s, e)
  {
    match e
    case Create(sockfd, uniqid) => TakeoverOrphansIff(s, e, t);
    case Login(sockfd, uniqid, found) => TakeoverOrphansIff(s, e, t);
    case Leave(sockfd) => LeaveOrphansNobody(s, e, t);
    case LoadReply(i, loaded, found) => ReplyOrphansIff(s, e, t);
  }

  lemma SessionOf(s: State, fd: int)
    requires fd in s.clients
    ensures HasSession(s, s.clients[fd].uniqid)
  {
  }

  lemma TakeoverOrphansIff(s: State, e: Event, t: State)
    requires Keyed(s) && OneSessionEach(s.clients) && NoOrphans(s) && Step(s, e, t) && (e.Create? || e.Login?)
    ensures NoOrphans(t) <==> !Displaces(s, e.sockfd, e.uniqid)
  {
    SessionOf(t, e.sockfd);
    assert t.clients[e.sockfd].uniqid == e.uniqid;
    forall id | id in t.players && id != e.uniqid
      ensures id in s.players
      ensures HasSession(t, id) <==> !(e.sockfd in s.clients && s.clients[e.sockfd].uniqid == id)
    {
      var fd :| fd in s.clients && s.clients[fd].uniqid == id;
      if fd != e.sockfd {
        assert fd in t.clients && t.clients[fd] == s.clients[fd];
        SessionOf(t, fd);
      }
    }
    if Displaces(s, e.sockfd, e.uniqid) {
      assert s.clients[e.sockfd].uniqid in t.players;
    }
  }

  lemma LeaveOrphansNobody(s: State, e: Event, t: State)
    requires Keyed(s) && OneSessionEach(s.clients) && NoOrphans(s) && Step(s, e, t) && e.Leave?
    ensures NoOrphans(t)
  {
    forall id | id in t.players
      ensures HasSession(t, id)
    {
      var fd :| fd in s.clients && s.clients[fd].uniqid == id;
      SessionOf(t, fd);
    }
  }

  lemma ReplyOrphansIff(s: State, e: Event, t: State)
    requires Keyed(s) && OneSessionEach(s.clients) && NoOrphans(s) && Step(s, e, t) && e.LoadReply?
    ensures NoOrphans(t) <==> KeepsOwners(s, e)
  {
    var u := s.pending[e.i].uniqid;
    forall id | id in s.players
      ensures HasSession(t, id) <==> e.loaded || id != u
    {
      var fd :| fd in s.clients && s.clients[fd].uniqid == id;
      if fd in t.clients {
        SessionOf(t, fd);
      }
    }
    if e.loaded {
      assert t.clients == s.clients;
      assert HasSession(t, u) == HasSession(s, u);
    }
  }

  /** Without such players a login always loads the player anew, for the connection it came on. */
  lemma LoginLoadsItsPlayer(s: State, e: Event, t: State)
    requires Keyed(s) && OneSessionEach(s.clients) && NoOrphans(s) && Step(s, e, t) && e.Login?
    ensures t.pending == s.pending + [Player(s.made, e.uniqid, ClientProxy(e.sockfd, e.uniqid))]
    ensures t.replies == s.replies
  {
    assert e.uniqid in s.players ==> HasSession(s, e.uniqid);
  }

  // ----- the history of a run -----

  datatype Session = NoSession | Active(uniqid: int)

  /** The session under a socket after the first `n` events: that of the last login or creation there,
      unless a logout, a login that found it or a failed load that found it has ended it. */
  function Opened(events: seq<Event>, n: nat, fd: int): Session
    requires n <= |events|
  {
    if n == 0 then NoSession
    else match events[n - 1]
      case Create(g, id) => if g == fd then Active(id) else Opened(events, n - 1, fd)
      case Login(g, id, found) =>
        if g == fd then Active(id)
        else if found.Found? && found.proxy.sockfd == fd then NoSession
        else Opened(events, n - 1, fd)
      case Leave(g) => if g == fd then NoSession else Opened(events, n - 1, fd)
      case LoadReply(_, loaded, found) =>
        if !loaded && found.Found? && found.proxy.sockfd == fd then NoSession else Opened(events, n - 1, fd)
  }

  /** In every run the sessions are those that the events have opened and not ended. */
  lemma {:induction false} SessionsAreThoseOpened(states: seq<State>, events: seq<Event>, n: nat, fd: int)
    requires Run(states, events) && n < |states|
    ensures match Opened(events, n, fd)
      case NoSession => fd !in states[n].clients
      case Active(id) => fd in states[n].clients && states[n].clients[fd] == ClientProxy(fd, id)
  {
    if n > 0 {
      SessionsAreThoseOpened(states, events, n - 1, fd);
      EveryRunIsKeyed(states, events, n - 1);
      SessionsAfter(states[n - 1], events[n - 1], states[n], fd);
    }
  }

  lemma SessionsAfter(s: State, e: Event, t: State, fd: int)
    requires Keyed(s) && Step(s, e, t)
    ensures var ended := match e
        case Create(_, _) => false
        case Login(_, _, found) => found.Found? && found.proxy.sockfd == fd
        case Leave(g) => g == fd
        case LoadReply(_, loaded, found) => !loaded && found.Found? && found.proxy.sockfd == fd;
      if (e.Create? || e.Login?) && e.sockfd == fd then
        fd in t.clients && t.clients[fd] == ClientProxy(fd, e.uniqid)
      else
        (fd in t.clients <==> fd in s.clients && !ended) && (fd in t.clients ==> t.clients[fd] == s.clients[fd])
  {
  }

  lemma {:induction false} EveryRunIsKeyed(states: seq<State>, events: seq<Event>, n: nat)
    requires Run(states, events) && n < |states|
    ensures Keyed(states[n])
  {
    if n > 0 {
      hide Step, Keyed;
      EveryRunIsKeyed(states, events, n - 1);
      StepKeepsKeyed(states[n - 1], events[n - 1], states[n]);
    }
  }

  datatype Memory = Absent | Present(player: Player)

  /** The player in memory under an id after the first `n` events: the object that the last creation or
      loaded data have put there, unless a login that found a session of the id, or the end of such a
      session by a logout, has dropped it. */
  ghost function Remembered(states: seq<State>, events: seq<Event>, n: nat, id: int): Memory
    requires n <= |events| && n < |states|
  {
    if n == 0 then Absent
    else
      var s, before := states[n - 1], Remembered(states, events, n - 1, id);
      match events[n - 1]
      case Create(fd, u) =>
        if u == id && before.Absent? then Present(Player(s.made, id, ClientProxy(fd, id))) else before
      case Login(_, u, found) => if u == id && found.Found? then Absent else before
      case Leave(fd) => if fd in s.clients && s.clients[fd].uniqid == id then Absent else before
      case LoadReply(i, loaded, _) =>
        if loaded && i < |s.pending| && s.pending[i].uniqid == id then Present(s.pending[i]) else before
  }

  /** In every run the players in memory are those that the events have put there and not dropped. */
  lemma {:induction false} PlayersAreThoseRemembered(states: seq<State>, events: seq<Event>, n: nat, id: int)
    requires Run(states, events) && n < |states|
    ensures match Remembered(states, events, n, id)
      case Absent => id !in states[n].players
      case Present(player) => id in states[n].players && states[n].players[id] == player
  {
    if n > 0 {
      PlayersAreThoseRemembered(states, events, n - 1, id);
      EveryRunIsKeyed(states, events, n - 1);
      assert Step(states[n - 1], events[n - 1], states[n]);
    }
  }

  // ----- answers to logins -----

  /** The load was started by the login that is event number `j`, for the connection it came on. */
  ghost predicate StartedBy(states: seq<State>, events: seq<Event>, player: Player, j: nat)
    requires |states| == |events| + 1
  {
    && j < |events| && events[j].Login? && states[j].made == player.number
    && player.proxy == ClientProxy(events[j].sockfd, events[j].uniqid) && player.uniqid == events[j].uniqid
  }

  lemma {:induction false} PendingWasStarted(states: seq<State>, events: seq<Event>, n: nat, i: nat) returns (j: nat)
    requires Run(states, events) && n < |states| && i < |states[n].pending|
    ensures j < n && StartedBy(states, events, states[n].pending[i], j)
  {
    assert n > 0 && Step(states[n - 1], events[n - 1], states[n]);
    var s, e := states[n - 1], events[n - 1];
    if e.LoadReply? {
      assert states[n].pending[i] == s.pending[if i < e.i then i else i + 1];
      j := PendingWasStarted(states, events, n - 1, if i < e.i then i else i + 1);
    } else if i < |s.pending| {
      j := PendingWasStarted(states, events, n - 1, i);
    } else {
      j := n - 1;
    }
  }

  /** In every run loaded data put the player into memory and are answered on the socket of the login
      that asked for them; a load that fails is answered on the socket of a session of the same id,
      which it ends, and not at all if there is none. */
  lemma ReplyAnswersItsLogin(states: seq<State>, events: seq<Event>, n: nat) returns (j: nat)
    requires Run(states, events) && n < |events| && events[n].LoadReply?
    ensures j < n && events[n].i < |states[n].pending| && StartedBy(states, events, states[n].pending[events[n].i], j)
    ensures var s, t, id := states[n], states[n + 1], events[j].uniqid;
      if events[n].loaded then
        && t.replies == s.replies + [LoginOk(events[j].sockfd)]
        && id in t.players && t.players[id] == s.pending[events[n].i]
      else if HasSession(s, id) then
        exists fd | fd in s.clients && s.clients[fd].uniqid == id ::
          t.replies == s.replies + [LoginFailed(fd)] && t.clients == s.clients - {fd}
      else t.replies == s.replies && t.clients == s.clients
  {
    var s, e, t := states[n], events[n], states[n + 1];
    assert Step(s, e, t);
    j := PendingWasStarted(states, events, n, e.i);
    EveryRunIsKeyed(states, events, n);
    if !e.loaded && e.found.Found? {
      var fd := e.found.proxy.sockfd;
      assert fd in s.clients && s.clients[fd].uniqid == events[j].uniqid;
      assert t.replies == s.replies + [LoginFailed(fd)] && t.clients == s.clients - {fd};
    }
  }

  function Answers(replies: seq<Reply>): nat {
    if replies == [] then 0
    else Answers(replies[..|replies| - 1]) + (if replies[|replies| - 1].Created? then 0 else 1)
  }

  function Logins(events: seq<Event>): nat {
    if events == [] then 0
    else Logins(events[..|events| - 1]) + (if events[|events| - 1].Login? then 1 else 0)
  }

  /** The loads that failed when there was no session any more. */
  function Unheard(events: seq<Event>): nat {
    if events == [] then 0
    else
      var e := events[|events| - 1];
      Unheard(events[..|events| - 1]) + (if e.LoadReply? && !e.loaded && e.found.NotFound? then 1 else 0)
  }

  lemma AnswersOfMore(replies: seq<Reply>, r: Reply)
    ensures Answers(replies + [r]) == Answers(replies) + if r.Created? then 0 else 1
  {
    assert (replies + [r])[..|replies|] == replies;
  }

  lemma AnswersOfStep(s: State, e: Event, t: State)
    requires Step(s, e, t)
    ensures (if e.Login? then 1 else 0) + |s.pending| + Answers(s.replies) ==
      |t.pending| + Answers(t.replies) + (if e.LoadReply? && !e.loaded && e.found.NotFound? then 1 else 0)
  {
    hide Answers;
    if |t.replies| > |s.replies| {
      AnswersOfMore(s.replies, t.replies[|s.replies|]);
    }
  }

  lemma CountsOfMore(events: seq<Event>, n: nat)
    requires 0 < n <= |events|
    ensures var e := events[n - 1];
      && Logins(events[..n]) == Logins(events[..n - 1]) + (if e.Login? then 1 else 0)
      && Unheard(events[..n]) ==
         Unheard(events[..n - 1]) + (if e.LoadReply? && !e.loaded && e.found.NotFound? then 1 else 0)
  {
    assert events[..n][..n - 1] == events[..n - 1];
  }

  /** In every run each login is answered once, is still waiting for its data, or came to nothing because
      its load failed when there was no session any more. */
  lemma {:induction false} EveryLoginIsAnswered(states: seq<State>, events: seq<Event>, n: nat)
    requires Run(states, events) && n < |states|
    ensures Logins(events[..n]) == |states[n].pending| + Answers(states[n].replies) + Unheard(events[..n])
  {
    if n > 0 {
      hide Step, Answers, Logins, Unheard;
      EveryLoginIsAnswered(states, events, n - 1);
      CountsOfMore(events, n);
      AnswersOfStep(states[n - 1], events[n - 1], states[n]);
    } else {
      assert Answers([]) == 0;
    }
  }

  // ----- players dropped without being saved -----

  /** Player objects are numbered apart, and none is in two places. */
  ghost predicate Numbered(s: State) {
    && (forall id | id in s.players :: s.players[id].number < s.made && s.players[id] !in s.saved)
    && (forall i | 0 <= i < |s.pending| :: s.pending[i].number < s.made && s.pending[i] !in s.saved)
    && (forall i | 0 <= i < |s.saved| :: s.saved[i].number < s.made)
    && (forall id, i | id in s.players && 0 <= i < |s.pending| :: s.players[id].number != s.pending[i].number)
    && (forall i, j | 0 <= i < j < |s.pending| :: s.pending[i].number != s.pending[j].number)
  }

  lemma DiscardKeepsNumbered(s: State, uniqid: int)
    requires Keyed(s) && Numbered(s)
    ensures Numbered(Discarded(s, uniqid)) && Keyed(Discarded(s, uniqid))
  {
    if uniqid in s.players {
      var t := Discarded(s, uniqid);
      assert forall p | p in t.saved :: p in s.saved || p == s.players[uniqid];
    }
  }

  /** A new object among the players in memory, or among those being loaded. */
  lemma NewPlayerKeepsNumbered(s: State, proxy: ClientProxy)
    requires Numbered(s) && proxy.uniqid !in s.players
    ensures var p := Player(s.made, proxy.uniqid, proxy);
      && Numbered(s.(players := s.players[proxy.uniqid := p], made := s.made + 1))
      && Numbered(s.(pending := s.pending + [p], made := s.made + 1))
  {
    var p := Player(s.made, proxy.uniqid, proxy);
    assert p !in s.saved;
  }

  lemma ReplyKeepsNumbered(s: State, i: nat)
    requires Keyed(s) && Numbered(s) && i < |s.pending|
    ensures var t := s.(pending := s.pending[..i] + s.pending[i + 1..]);
      Numbered(t) && Numbered(t.(players := t.players[s.pending[i].uniqid := s.pending[i]]))
  {
    var rest := s.pending[..i] + s.pending[i + 1..];
    assert forall j | 0 <= j < |rest| :: rest[j] == s.pending[if j < i then j else j + 1];
  }

  lemma StepKeepsNumbered(s: State, e: Event, t: State)
    requires Keyed(s) && Numbered(s) && Step(s, e, t)
    ensures Numbered(t)
  {
    hide Numbered;
    match e
    case Create(sockfd, uniqid) =>
      var u := With(s, ClientProxy(sockfd, uniqid));
      OnlyPlayersCount(s, u);
      if uniqid !in s.players {
        NewPlayerKeepsNumbered(u, ClientProxy(sockfd, uniqid));
        OnlyPlayersCount(t.(replies := s.replies), t);
      } else {
        OnlyPlayersCount(u, t);
      }
    case Login(sockfd, uniqid, found) =>
      LoginKeepsNumbered(s, sockfd, uniqid, found);
    case Leave(sockfd) =>
      if sockfd in s.clients {
        OnlyPlayersCount(s, Without(s, s.clients[sockfd]));
        DiscardKeepsNumbered(Without(s, s.clients[sockfd]), s.clients[sockfd].uniqid);
      }
    case LoadReply(i, loaded, found) =>
      ReplyKeepsNumbered(s, i);
      var u := s.(pending := s.pending[..i] + s.pending[i + 1..]);
      OnlyPlayersCount(if loaded then u.(players := t.players) else u, t);
  }

  lemma LoginKeepsNumbered(s: State, sockfd: int, uniqid: int, found: Search)
    requires Keyed(s) && Numbered(s)
    ensures Numbered(AfterLogin(s, sockfd, uniqid, found))
  {
    hide Numbered;
    var t := if found.Found? then Discarded(Without(s, found.proxy), uniqid) else s;
    if found.Found? {
      OnlyPlayersCount(s, Without(s, found.proxy));
      DiscardKeepsNumbered(Without(s, found.proxy), uniqid);
    }
    var u := With(t, ClientProxy(sockfd, uniqid));
    OnlyPlayersCount(t, u);
    if uniqid in u.players {
      assert u.players[uniqid := u.players[uniqid]] == u.players;
      OnlyPlayersCount(u, Entered(u, u.players[uniqid]));
    } else {
      NewPlayerKeepsNumbered(u, ClientProxy(sockfd, uniqid));
    }
  }

  lemma OnlyPlayersCount(s: State, t: State)
    requires Numbered(s) && t.players == s.players && t.pending == s.pending && t.saved == s.saved && t.made == s.made
    ensures Numbered(t)
  {
  }

  /** The player object is neither in memory any more nor saved. */
  ghost predicate DroppedUnsaved(s: State, t: State, id: int)
    requires id in s.players
  {
    !(id in t.players && t.players[id] == s.players[id]) && s.players[id] !in t.saved
  }

  /** Loaded data arrive for a player who is in memory already. */
  predicate Overwrites(s: State, e: Event) {
    e.LoadReply? && e.loaded && e.i < |s.pending| && s.pending[e.i].uniqid in s.players
  }

  /** A player in memory is dropped without being saved exactly by a load reply for an id that is
      in memory already. */
  lemma DropsUnsavedIff(s: State, e: Event, t: State)
    requires Keyed(s) && Numbered(s) && Step(s, e, t)
    ensures (exists id | id in s.players :: DroppedUnsaved(s, t, id)) <==> Overwrites(s, e)
  {
    if Overwrites(s, e) {
      assert DroppedUnsaved(s, t, s.pending[e.i].uniqid);
    } else if e.Login? && e.found.Found? && e.uniqid in s.players {
      assert t.saved[|s.saved|] == s.players[e.uniqid];
    } else if e.Leave? && e.sockfd in s.clients && s.clients[e.sockfd].uniqid in s.players {
      assert t.saved[|s.saved|] == s.players[s.clients[e.sockfd].uniqid];
    }
  }

  lemma {:induction false} EveryRunIsNumbered(states: seq<State>, events: seq<Event>, n: nat)
    requires Run(states, events) && n < |states|
    ensures Keyed(states[n]) && Numbered(states[n])
  {
    if n > 0 {
      hide Step, Keyed, Numbered;
      EveryRunIsNumbered(states, events, n - 1);
      StepKeepsKeyed(states[n - 1], events[n - 1], states[n]);
      StepKeepsNumbered(states[n - 1], events[n - 1], states[n]);
    }
  }

  // ----- runs in which something goes wrong -----

  lemma RunOfOne(e: Event, t: State)
    requires Step(INITIAL, e, t)
    ensures Run([INITIAL, t], [e])
  {
  }

  lemma RunGoesOn(states: seq<State>, events: seq<Event>, e: Event, t: State)
    requires Run(states, events) && Step(states[|events|], e, t)
    ensures Run(states + [t], events + [e])
  {
  }

  /** Two creations of one id on two sockets: the id has two sessions. */
  lemma TwoSessionsOfOneId() returns (states: seq<State>, events: seq<Event>)
    ensures Run(states, events) && events == [Create(1, 7), Create(2, 7)]
    ensures !OneSessionEach(states[2].clients)
  {
    var s1 := AfterCreate(INITIAL, 1, 7);
    RunOfOne(Create(1, 7), s1);
    var s2 := AfterCreate(s1, 2, 7);
    RunGoesOn([INITIAL, s1], [Create(1, 7)], Create(2, 7), s2);
    states, events := [INITIAL, s1] + [s2], [Create(1, 7)] + [Create(2, 7)];
    assert s2.clients[1].uniqid == s2.clients[2].uniqid;
  }

  /** A login, a logout, and then the loaded data: the player is in memory without a session. */
  lemma LateReplyOrphans() returns (states: seq<State>, events: seq<Event>)
    ensures Run(states, events) && events == [Login(1, 7, NotFound), Leave(1), LoadReply(0, true, NotFound)]
    ensures states[3].clients == map[] && 7 in states[3].players && !NoOrphans(states[3])
  {
    var s1 := AfterLogin(INITIAL, 1, 7, NotFound);
    RunOfOne(Login(1, 7, NotFound), s1);
    var s2 := AfterLeave(s1, 1);
    RunGoesOn([INITIAL, s1], [Login(1, 7, NotFound)], Leave(1), s2);
    var reply := LoadReply(0, true, NotFound);
    var s3 := AfterLoadReply(s2, 0, true, NotFound);
    states, events := [INITIAL, s1] + [s2], [Login(1, 7, NotFound)] + [Leave(1)];
    RunGoesOn(states, events, reply, s3);
    states, events := states + [s3], events + [reply];
    assert 7 in s3.players && !HasSession(s3, 7);
  }

  /** A second creation on a socket for another id: the first player is in memory without a session. */
  lemma TakeoverOrphans() returns (states: seq<State>, events: seq<Event>)
    ensures Run(states, events) && events == [Create(1, 7), Create(1, 8)]
    ensures 7 in states[2].players && !HasSession(states[2], 7) && !NoOrphans(states[2])
  {
    var s1 := AfterCreate(INITIAL, 1, 7);
    RunOfOne(Create(1, 7), s1);
    var s2 := AfterCreate(s1, 1, 8);
    RunGoesOn([INITIAL, s1], [Create(1, 7)], Create(1, 8), s2);
    states, events := [INITIAL, s1] + [s2], [Create(1, 7)] + [Create(1, 8)];
    assert 7 in s2.players && !HasSession(s2, 7);
  }

  /** Two overlapping logins of one id: the player loaded first is overwritten by the one loaded
      second, and nothing has been saved; and the first answer goes to a socket without a session. */
  lemma OverlappingLoginsDrop() returns (states: seq<State>, events: seq<Event>)
    ensures Run(states, events)
    ensures var reply := LoadReply(0, true, NotFound);
      events == [Login(1, 7, NotFound), Login(2, 7, Found(ClientProxy(1, 7))), reply, reply]
    ensures states[3].replies == [LoginOk(1)] && 1 !in states[3].clients && Overwrites(states[3], events[3])
    ensures 7 in states[3].players && DroppedUnsaved(states[3], states[4], 7) && states[4].saved == []
  {
    var first, second := Login(1, 7, NotFound), Login(2, 7, Found(ClientProxy(1, 7)));
    var reply := LoadReply(0, true, NotFound);
    var s1 := AfterLogin(INITIAL, 1, 7, NotFound);
    RunOfOne(first, s1);
    assert s1.clients[1] == ClientProxy(1, 7);
    var s2 := AfterLogin(s1, 2, 7, Found(ClientProxy(1, 7)));
    RunGoesOn([INITIAL, s1], [first], second, s2);
    states, events := [INITIAL, s1] + [s2], [first] + [second];
    var s3 := AfterLoadReply(s2, 0, true, NotFound);
    RunGoesOn(states, events, reply, s3);
    states, events := states + [s3], events + [reply];
    var s4 := AfterLoadReply(s3, 0, true, NotFound);
    RunGoesOn(states, events, reply, s4);
    states, events := states + [s4], events + [reply];
  }
}

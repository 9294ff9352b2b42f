/** `SqlManager`: request ids that wrap around, and replies that run callbacks which may issue
    requests themselves. */
module SqlExec {
  const PERIOD: nat := 31999

  /** A callback that ran, and the data it was given. */
  datatype Ran = Ran(proxy: nat, data: string)

  /** The last id and the table of `SqlManager`, the ids sent to the database and the callbacks run.
      A proxy is known by the number of its request, counted from 0. */
  datatype State = State(sqlId: nat, sqlDict: map<nat, nat>, sent: seq<nat>, ran: seq<Ran>)

  const INITIAL := State(1, map[], [], [])

  function NextId(sqlId: nat): nat {
    if sqlId + 1 >= 32000 then 1 else sqlId + 1
  }

  function AfterExec(s: State): State {
    var id := NextId(s.sqlId);
    State(id, s.sqlDict[id := |s.sent|], s.sent + [id], s.ran)
  }

  function AfterExecs(s: State, n: nat): State
    decreases n
  {
    if n == 0 then s else AfterExecs(AfterExec(s), n - 1)
  }

  /** The reply with this id arrives; its callback issues `nested` requests. */
  function AfterCallback(s: State, sqlId: nat, data: string, nested: nat): State {
    if sqlId !in s.sqlDict then s
    else
      var t := AfterExecs(s.(ran := s.ran + [Ran(s.sqlDict[sqlId], data)]), nested);
      t.(sqlDict := t.sqlDict - {sqlId})
  }

  class SqlManager {
    var sqlId: nat
    var sqlDict: map<nat, nat>
    var sent: seq<nat>
    var ran: seq<Ran>

    ghost function Value(): State
      reads this
    {
      State(sqlId, sqlDict, sent, ran)
    }

    constructor ()
      ensures Value() == INITIAL
    {
      sqlId, sqlDict, sent, ran := 1, map[], [], [];
    }

    method AddSqlId() returns (id: nat)
      modifies this`sqlId
      ensures id == sqlId == NextId(old(sqlId))
    {
      sqlId := sqlId + 1;
      if sqlId >= 32000 {
        sqlId := 1;
      }
      id := sqlId;
    }

    /** Sends a request for a new proxy. */
    method OnExec()
      modifies this
      ensures Value() == AfterExec(old(Value()))
    {
      var id := AddSqlId();
      sqlDict := sqlDict[id := |sent|];
      sent := sent + [id];
    }

    /** `proxy.callback`: the function of the proxy, which issues `nested` requests. */
    method RunCallback(proxy: nat, data: string, nested: nat)
      modifies this
      ensures Value() == AfterExecs(old(Value()).(ran := old(ran) + [Ran(proxy, data)]), nested)
    {
      ran := ran + [Ran(proxy, data)];
      ghost var start := Value();
      for i := 0 to nested
        invariant AfterExecs(Value(), nested - i) == AfterExecs(start, nested)
      {
        OnExec();
      }
    }

    /** The entry is deleted after its callback, by its id. */
    method OnCallback(id: nat, data: string, nested: nat)
      modifies this
      ensures Value() == AfterCallback(old(Value()), id, data, nested)
    {
      if id !in sqlDict {
        return;
      }
      RunCallback(sqlDict[id], data, nested);
      sqlDict := sqlDict - {id};
    }
  }

  // ----- ids -----

  /** The id of the request number `k`. */
  function IdOf(k: nat): (id: nat)
    ensures 1 <= id <= PERIOD
  {
    (k + 1) % PERIOD + 1
  }

  /** Two requests share an id exactly if their numbers are a multiple of 31999 apart; within that
      distance they do not. */
  lemma IdsRepeat(j: nat, k: nat)
    requires j <= k <= j + PERIOD
    ensures IdOf(j) == IdOf(k) <==> k == j || k == j + PERIOD
  {
    var d := k - j;
    var r := (j + 1) % PERIOD;
    assert (k + 1) % PERIOD == (r + d) % PERIOD by {
      assert k + 1 == PERIOD * ((j + 1) / PERIOD) + (r + d);
      ModShift((j + 1) / PERIOD, r + d);
    }
    if r + d >= PERIOD {
      ModShift(1, r + d - PERIOD);
    }
  }

  lemma {:induction false} ModShift(q: nat, x: nat)
    ensures (PERIOD * q + x) % PERIOD == x % PERIOD
  {
    if q > 0 {
      ModShift(q - 1, x);
      assert PERIOD * q + x == PERIOD * (q - 1) + x + PERIOD;
    }
  }

  /** Ids count up with the requests, and the table holds a request under its own id as long as
      none of the next 31999 took that id. */
  ghost predicate Counted(s: State) {
    && s.sqlId == |s.sent| % PERIOD + 1
    && (forall k | 0 <= k < |s.sent| :: s.sent[k] == IdOf(k))
    && (forall id | id in s.sqlDict ::
          s.sqlDict[id] < |s.sent| <= s.sqlDict[id] + PERIOD && id == IdOf(s.sqlDict[id]))
  }

  lemma NextIdCounts(n: nat)
    ensures NextId(n % PERIOD + 1) == IdOf(n)
  {
    var r := n % PERIOD;
    assert n == PERIOD * (n / PERIOD) + r;
    ModShift(n / PERIOD, r + 1);
    assert n + 1 == PERIOD * (n / PERIOD) + (r + 1);
    if r + 1 == PERIOD {
      ModShift(1, 0);
    }
  }

  lemma ExecKeepsCounted(s: State)
    requires Counted(s)
    ensures Counted(AfterExec(s)) && NextId(s.sqlId) == IdOf(|s.sent|)
  {
    hide IdOf, NextId;
    var n := |s.sent|;
    NextIdCounts(n);
    IdOfSuccessor(n);
    forall id | id in s.sqlDict && id != IdOf(n)
      ensures n + 1 <= s.sqlDict[id] + PERIOD
    {
      if n == s.sqlDict[id] + PERIOD {
        IdsRepeat(s.sqlDict[id], n);
      }
    }
  }

  lemma IdOfSuccessor(n: nat)
    ensures IdOf(n) == (n + 1) % PERIOD + 1
  {
  }

  lemma {:induction false} ExecsKeepCounted(s: State, n: nat)
    requires Counted(s)
    ensures Counted(AfterExecs(s, n))
    decreases n
  {
    hide Counted, AfterExec;
    if n > 0 {
      ExecKeepsCounted(s);
      ExecsKeepCounted(AfterExec(s), n - 1);
    }
  }

  // ----- events and runs -----

  datatype Event = Exec | Callback(sqlId: nat, data: string, nested: nat)

  function After(s: State, e: Event): State {
    match e
    case Exec => AfterExec(s)
    case Callback(sqlId, data, nested) => AfterCallback(s, sqlId, data, nested)
  }

  function AfterAll(s: State, events: seq<Event>): State
    decreases |events|
  {
    if events == [] then s else After(AfterAll(s, events[..|events| - 1]), events[|events| - 1])
  }

  lemma EventKeepsCounted(s: State, e: Event)
    requires Counted(s)
    ensures Counted(After(s, e))
  {
    hide IdOf, AfterExecs, AfterExec;
    if e.Callback? && e.sqlId in s.sqlDict {
      var running := s.(ran := s.ran + [Ran(s.sqlDict[e.sqlId], e.data)]);
      ExecsKeepCounted(running, e.nested);
      RemovalKeepsCounted(AfterExecs(running, e.nested), e.sqlId);
    } else if e.Exec? {
      ExecKeepsCounted(s);
    }
  }

  lemma RemovalKeepsCounted(s: State, id: nat)
    requires Counted(s)
    ensures Counted(s.(sqlDict := s.sqlDict - {id}))
  {
  }

  /** In every run the ids are 2, ..., 31999, 1, 2, ... in turn. */
  lemma {:induction false} EveryRunCounts(events: seq<Event>)
    ensures Counted(AfterAll(INITIAL, events))
    decreases |events|
  {
    hide After;
    if events != [] {
      EveryRunCounts(events[..|events| - 1]);
      EventKeepsCounted(AfterAll(INITIAL, events[..|events| - 1]), events[|events| - 1]);
    }
  }

  // ----- replies find their requester -----

  ghost predicate Answered(s: State, k: nat) {
    exists i | 0 <= i < |s.ran| :: s.ran[i].proxy == k
  }

  /** The request is in the table under its id. */
  predicate Pending(s: State, k: nat) {
    IdOf(k) in s.sqlDict && s.sqlDict[IdOf(k)] == k
  }

  /** Every request is pending until its callback runs, except that the one whose callback is
      running stays in the table; and no callback runs twice. */
  ghost predicate ExactWhile(s: State, running: int) {
    && (forall k | 0 <= k < |s.sent| :: Pending(s, k) <==> !Answered(s, k) || k == running)
    && RunsOnce(s)
  }

  ghost predicate RunsOnce(s: State) {
    && (forall i | 0 <= i < |s.ran| :: s.ran[i].proxy < |s.sent|)
    && (forall i, j | 0 <= i < j < |s.ran| :: s.ran[i].proxy != s.ran[j].proxy)
  }

  ghost predicate Exact(s: State) {
    ExactWhile(s, -1)
  }

  /** `n` more requests can be made before one of those in the table is 31999 requests old. */
  predicate Timely(s: State, n: nat) {
    n <= PERIOD && forall id | id in s.sqlDict :: |s.sent| + n <= s.sqlDict[id] + PERIOD
  }

  /** A new request takes the id of another in the table exactly if the one 31999 before is there. */
  lemma OverwritesIff(s: State)
    requires Counted(s)
    ensures NextId(s.sqlId) in s.sqlDict <==> |s.sent| >= PERIOD && Pending(s, |s.sent| - PERIOD)
    ensures NextId(s.sqlId) in s.sqlDict <==> !Timely(s, 1)
  {
    hide IdOf;
    var n := |s.sent|;
    ExecKeepsCounted(s);
    if n >= PERIOD {
      IdsRepeat(n - PERIOD, n);
    }
    forall id | id in s.sqlDict
      ensures id == IdOf(n) <==> s.sqlDict[id] + PERIOD == n
    {
      IdsRepeat(s.sqlDict[id], n);
    }
  }

  lemma ExecEffect(s: State)
    requires Counted(s)
    ensures var t := AfterExec(s);
      && t.sqlDict == s.sqlDict[IdOf(|s.sent|) := |s.sent|] && t.ran == s.ran && |t.sent| == |s.sent| + 1
  {
    ExecKeepsCounted(s);
  }

  /** A request that is not answered and not in the table either. */
  ghost predicate Lost(s: State, running: int, k: nat) {
    k < |s.sent| && !Pending(s, k) && (!Answered(s, k) || k == running)
  }

  /** A request made in time leaves the table exact. */
  lemma ExecIsExact(s: State, running: int)
    requires Counted(s) && ExactWhile(s, running) && running < |s.sent| && Timely(s, 1)
    ensures ExactWhile(AfterExec(s), running)
  {
    hide IdOf, NextId, AfterExec, Counted, Timely;
    var t, n := AfterExec(s), |s.sent|;
    OverwritesIff(s);
    ExecEffect(s);
    NextIdIs(s);
    assert t.ran == s.ran;
    assert !Answered(t, n);
    forall k | 0 <= k < n
      ensures Pending(t, k) == Pending(s, k) && Answered(t, k) == Answered(s, k)
    {
      assert Pending(s, k) ==> IdOf(k) != IdOf(n);
    }
  }

  lemma NextIdIs(s: State)
    requires Counted(s)
    ensures NextId(s.sqlId) == IdOf(|s.sent|)
  {
    ExecKeepsCounted(s);
  }

  /** Otherwise the request 31999 before is lost. */
  lemma UntimelyExecLoses(s: State, running: int)
    requires Counted(s) && ExactWhile(s, running) && !Timely(s, 1)
    ensures |s.sent| >= PERIOD && Lost(AfterExec(s), running, |s.sent| - PERIOD)
  {
    hide IdOf, NextId, AfterExec, Counted, Timely;
    OverwritesIff(s);
    ExecEffect(s);
    NextIdIs(s);
    var k := |s.sent| - PERIOD;
    IdsRepeat(k, |s.sent|);
    assert AfterExec(s).ran == s.ran;
    assert Answered(AfterExec(s), k) == Answered(s, k);
  }

  lemma {:induction false} LostStaysLost(s: State, running: int, k: nat, n: nat)
    requires Counted(s) && Lost(s, running, k)
    ensures Lost(AfterExecs(s, n), running, k)
    decreases n
  {
    if n > 0 {
      hide IdOf, AfterExec, Counted;
      var t := AfterExec(s);
      ExecEffect(s);
      ExecKeepsCounted(s);
      assert t.ran == s.ran;
      assert Answered(t, k) == Answered(s, k);
      LostStaysLost(t, running, k, n - 1);
    }
  }

  lemma TimelyMore(s: State, n: nat)
    requires Counted(s) && 0 < n
    ensures Timely(s, n) <==> Timely(s, 1) && Timely(AfterExec(s), n - 1)
  {
    hide IdOf, AfterExec, Counted, NextId;
    var t, m := AfterExec(s), |s.sent|;
    ExecEffect(s);
    OverwritesIff(s);
    NextIdIs(s);
    if Timely(s, 1) {
      assert t.sqlDict[IdOf(m)] == m;
      assert forall id | id in s.sqlDict :: id != IdOf(m) && t.sqlDict[id] == s.sqlDict[id];
    }
  }

  /** A series of requests: exact if and only if none of them overwrites anything. */
  lemma {:induction false} ExecsAreExactIff(s: State, n: nat, running: int) returns (lost: nat)
    requires Counted(s) && ExactWhile(s, running) && running < |s.sent|
    ensures Timely(s, n) ==> ExactWhile(AfterExecs(s, n), running)
    ensures !Timely(s, n) ==> Lost(AfterExecs(s, n), running, lost)
    decreases n
  {
    hide IdOf, AfterExec, Counted, ExactWhile, Lost;
    lost := 0;
    if n == 0 {
      TimelyNow(s);
    } else {
      TimelyMore(s, n);
      ExecEffect(s);
      ExecKeepsCounted(s);
      if Timely(s, 1) {
        ExecIsExact(s, running);
        lost := ExecsAreExactIff(AfterExec(s), n - 1, running);
      } else {
        UntimelyExecLoses(s, running);
        lost := |s.sent| - PERIOD;
        LostStaysLost(AfterExec(s), running, lost, n - 1);
      }
    }
  }

  lemma TimelyNow(s: State)
    requires Counted(s)
    ensures Timely(s, 0)
  {
  }

  /** The table while the callback of a reply runs. */
  function Running(s: State, id: nat, data: string): State
    requires id in s.sqlDict
  {
    s.(ran := s.ran + [Ran(s.sqlDict[id], data)])
  }

  lemma RunningIsExact(s: State, id: nat, data: string)
    requires Counted(s) && Exact(s) && id in s.sqlDict
    ensures Counted(Running(s, id, data)) && ExactWhile(Running(s, id, data), s.sqlDict[id])
    ensures forall n: nat :: Timely(Running(s, id, data), n) == Timely(s, n)
  {
    hide IdOf;
    var t, k := Running(s, id, data), s.sqlDict[id];
    assert Pending(s, k);
    assert t.ran[|s.ran|].proxy == k;
    forall j | 0 <= j < |s.sent|
      ensures Answered(t, j) <==> Answered(s, j) || j == k
    {
      if Answered(s, j) {
        var i :| 0 <= i < |s.ran| && s.ran[i].proxy == j;
        assert t.ran[i].proxy == j;
      }
    }
    forall i | 0 <= i < |s.ran|
      ensures s.ran[i].proxy != k
    {
      assert !Answered(s, k);
    }
  }

  lemma DeletionIsExact(s: State, id: nat, k: nat)
    requires Counted(s) && ExactWhile(s, k) && k < |s.sent| && IdOf(k) == id && Answered(s, k)
    ensures Exact(s.(sqlDict := s.sqlDict - {id}))
  {
    hide IdOf, Counted;
    var t := s.(sqlDict := s.sqlDict - {id});
    assert Pending(s, k);
    forall j | 0 <= j < |s.sent|
      ensures Pending(t, j) <==> !Answered(t, j)
    {
      assert Answered(t, j) == Answered(s, j);
    }
  }

  /** Further requests keep the entry under an id or replace it by one of theirs. */
  lemma {:induction false} EntriesAreKeptOrNew(s: State, n: nat, id: nat)
    requires Counted(s) && id in s.sqlDict
    ensures var t := AfterExecs(s, n); id in t.sqlDict && (t.sqlDict[id] == s.sqlDict[id] || t.sqlDict[id] >= |s.sent|)
    ensures AfterExecs(s, n).ran == s.ran && |AfterExecs(s, n).sent| == |s.sent| + n
    decreases n
  {
    if n > 0 {
      hide IdOf, AfterExec, Counted;
      ExecEffect(s);
      ExecKeepsCounted(s);
      EntriesAreKeptOrNew(AfterExec(s), n - 1, id);
    }
  }

  lemma LostIsNotExact(s: State, k: nat)
    requires Lost(s, -1, k)
    ensures !Exact(s)
  {
  }

  /** A lost request makes the deletion after the callback inexact: the request stays lost, or it
      is the one whose callback runs and the deletion takes the entry of another request. */
  lemma DeletionIsInexact(s: State, n: nat, id: nat, lost: nat)
    requires Counted(s) && id in s.sqlDict && RunsOnce(s) && IdOf(s.sqlDict[id]) == id
    requires Lost(AfterExecs(s, n), s.sqlDict[id], lost)
    ensures var t := AfterExecs(s, n); !Exact(t.(sqlDict := t.sqlDict - {id}))
  {
    hide IdOf, AfterExecs, Exact, Counted;
    var t, k := AfterExecs(s, n), s.sqlDict[id];
    var u := t.(sqlDict := t.sqlDict - {id});
    EntriesAreKeptOrNew(s, n, id);
    ExecsKeepCounted(s, n);
    if lost != k {
      assert Answered(u, lost) == Answered(t, lost);
      LostIsNotExact(u, lost);
    } else {
      var m := t.sqlDict[id];
      assert m != k;
      EntryIsCounted(t, id);
      assert !Answered(u, m);
      assert !Pending(u, m);
      LostIsNotExact(u, m);
    }
  }

  lemma EntryIsCounted(s: State, id: nat)
    requires Counted(s) && id in s.sqlDict
    ensures IdOf(s.sqlDict[id]) == id && s.sqlDict[id] < |s.sent|
  {
  }

  /** A reply runs the callback of the request with its id and leaves the table exact, even if the
      callback issues requests itself, if and only if none of these overwrites anything. */
  lemma CallbackIsExactIff(s: State, id: nat, data: string, nested: nat)
    requires Counted(s) && Exact(s) && id in s.sqlDict
    ensures AfterCallback(s, id, data, nested).ran == s.ran + [Ran(s.sqlDict[id], data)]
    ensures Exact(AfterCallback(s, id, data, nested)) <==> Timely(s, nested)
  {
    hide IdOf, AfterExecs, Exact, ExactWhile, Counted, Lost, Timely;
    var t, k := Running(s, id, data), s.sqlDict[id];
    RunningIsExact(s, id, data);
    EntryIsCounted(s, id);
    EntriesAreKeptOrNew(t, nested, id);
    ExecsKeepCounted(t, nested);
    var lost := ExecsAreExactIff(t, nested, k);
    if Timely(s, nested) {
      assert t.ran[|s.ran|].proxy == k;
      DeletionIsExact(AfterExecs(t, nested), id, k);
    } else {
      ExactRunsOnce(t, k);
      DeletionIsInexact(t, nested, id, lost);
    }
  }

  lemma ExactRunsOnce(s: State, running: int)
    requires ExactWhile(s, running)
    ensures RunsOnce(s)
  {
  }

  /** A request leaves the table exact if and only if it overwrites nothing. */
  lemma ExecIsExactIff(s: State)
    requires Counted(s) && Exact(s)
    ensures Exact(AfterExec(s)) <==> Timely(s, 1)
  {
    hide IdOf, AfterExec, ExactWhile, Counted, Lost, Timely;
    if Timely(s, 1) {
      ExecIsExact(s, -1);
    } else {
      UntimelyExecLoses(s, -1);
      LostIsNotExact(AfterExec(s), |s.sent| - PERIOD);
    }
  }

  /** Whether each request of the event is made before one in the table is 31999 requests old. */
  predicate TimelyEvent(s: State, e: Event) {
    match e
    case Exec => Timely(s, 1)
    case Callback(sqlId, _, nested) => sqlId in s.sqlDict ==> Timely(s, nested)
  }

  ghost predicate ExactUpTo(events: seq<Event>, n: nat)
    requires n <= |events|
  {
    forall m | 0 <= m <= n :: Exact(AfterAll(INITIAL, events[..m]))
  }

  ghost predicate TimelyUpTo(events: seq<Event>, n: nat)
    requires n <= |events|
  {
    forall m | 0 <= m < n :: TimelyEvent(AfterAll(INITIAL, events[..m]), events[m])
  }

  /** Reply correlation: in every run the table is exact throughout (each request pending until
      its own callback runs, once) if and only if every request is made in time. */
  lemma {:induction false} EveryRunIsExactIff(events: seq<Event>, n: nat)
    requires n <= |events|
    ensures ExactUpTo(events, n) <==> TimelyUpTo(events, n)
  {
    hide Exact, After, TimelyEvent;
    if n == 0 {
      InitialIsExact();
      assert events[..0] == [];
    } else {
      EveryRunIsExactIff(events, n - 1);
      var before := events[..n - 1];
      assert events[..n][..n - 1] == before;
      EveryRunCounts(before);
      if Exact(AfterAll(INITIAL, before)) {
        EventIsExactIff(AfterAll(INITIAL, before), events[n - 1]);
      }
    }
  }

  lemma InitialIsExact()
    ensures Exact(INITIAL)
  {
  }

  lemma EventIsExactIff(s: State, e: Event)
    requires Counted(s) && Exact(s)
    ensures Exact(After(s, e)) <==> TimelyEvent(s, e)
  {
    hide Exact, Counted, Timely;
    if e.Exec? {
      ExecIsExactIff(s);
    } else if e.sqlId in s.sqlDict {
      CallbackIsExactIff(s, e.sqlId, e.data, e.nested);
    }
  }

  /** In an exact table the reply to an unanswered request runs the callback of that request. */
  lemma ReplyRunsItsRequester(s: State, k: nat, data: string, nested: nat)
    requires Counted(s) && Exact(s) && k < |s.sent| && !Answered(s, k)
    ensures AfterCallback(s, s.sent[k], data, nested).ran == s.ran + [Ran(k, data)]
  {
    hide IdOf, AfterExecs;
    assert Pending(s, k);
    CallbackIsExactIff(s, IdOf(k), data, nested);
  }

  // ----- a run in which a request is lost -----

  function Requests(n: nat): (events: seq<Event>)
    ensures |events| == n && forall i | 0 <= i < n :: events[i] == Exec
  {
    seq(n, i => Exec)
  }

  lemma {:induction false} RequestsArePending(n: nat)
    requires n <= PERIOD
    ensures var s := AfterAll(INITIAL, Requests(n)); |s.sent| == n && s.ran == [] && Counted(s) && Exact(s)
  {
    hide Exact, Counted, IdOf;
    if n == 0 {
      InitialIsExact();
    } else {
      RequestsArePending(n - 1);
      assert Requests(n)[..n - 1] == Requests(n - 1);
      var s := AfterAll(INITIAL, Requests(n - 1));
      ExecEffect(s);
      ExecIsExactIff(s);
      assert Timely(s, 1);
    }
    EveryRunCounts(Requests(n));
  }

  /** After 32000 requests without a reply the first one is lost: the reply to it runs the callback
      of the last one. */
  lemma FirstRequestIsLost(data: string)
    ensures var s := AfterAll(INITIAL, Requests(32000));
      && !Exact(s) && s.sent[0] == IdOf(0)
      && AfterCallback(s, s.sent[0], data, 0).ran == [Ran(31999, data)]
  {
    hide Exact, Counted, IdOf, AfterExec, NextId;
    var t := AfterAll(INITIAL, Requests(PERIOD));
    var s := AfterAll(INITIAL, Requests(32000));
    RequestsArePending(PERIOD);
    assert Requests(32000)[..PERIOD] == Requests(PERIOD);
    assert s == AfterExec(t);
    FirstIsPending(t);
    UntimelyExecLoses(t, -1);
    LostIsNotExact(s, 0);
    EveryRunCounts(Requests(32000));
    IdsRepeat(0, PERIOD);
    ExecEffect(t);
    FirstIdIsSent(s);
    assert s.sqlDict[IdOf(0)] == PERIOD;
  }

  lemma FirstIsPending(t: State)
    requires Counted(t) && Exact(t) && |t.sent| == PERIOD && t.ran == []
    ensures ExactWhile(t, -1) && !Timely(t, 1)
  {
    assert !Answered(t, 0) && Pending(t, 0);
  }

  lemma FirstIdIsSent(s: State)
    requires Counted(s) && |s.sent| > 0
    ensures s.sent[0] == IdOf(0)
  {
  }
}

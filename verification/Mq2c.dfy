/** The queue from the workers to the socket thread: a mutex and an eventfd counter. Any number of
    threads push; the socket thread waits for the counter and drains the queue in `OnEventfd`. */
module Mq2c {
  import opened Sums
  import M = ServerModel

  type Outgoing = M.Outgoing

  /** Where a pushing thread is. */
  datatype Pc =
    | Idle
    | WantPush(item: Outgoing)
    | Pushing(item: Outgoing)
    | Signalling
    | Unlocking

  /** Where the socket thread is: waiting for events, in the handler before the counter is read,
      and in the loop around `MQ2C_Pop`. */
  datatype Socket =
    | Polling
    | Reading
    | WantPop
    | Popping
    | SawEmpty
    | Popped(item: Outgoing)
    | Handling(item: Outgoing)

  datatype Owner = Free | Pusher(thread: nat) | SocketThread

  /** The queue, the counter, the mutex, the threads, and the history: what was pushed and what the
      socket thread popped. */
  datatype State = State(
    queue: seq<Outgoing>, counter: nat, owner: Owner, pcs: seq<Pc>, socket: Socket,
    pushed: seq<Outgoing>, popped: seq<Outgoing>)

  datatype Action =
    | CallPush(thread: nat, item: Outgoing)
    | Lock(thread: nat) | PushBack(thread: nat) | Signal(thread: nat) | Unlock(thread: nat)
    | Wakeup | ReadCounter | LockToPop | Pop | UnlockPopped | Handle

  ghost predicate PusherStep(s: State, t: nat, a: Action, s': State) {
    t < |s.pcs| &&
    var pc := s.pcs[t];
    match a
    case CallPush(_, item) =>
      pc.Idle? && s' == s.(pcs := s.pcs[t := WantPush(item)])
    case Lock(_) =>
      pc.WantPush? && s.owner.Free? && s' == s.(owner := Pusher(t), pcs := s.pcs[t := Pushing(pc.item)])
    case PushBack(_) =>
      pc.Pushing? &&
      s' == s.(queue := s.queue + [pc.item], pushed := s.pushed + [pc.item], pcs := s.pcs[t := Signalling])
    case Signal(_) =>
      // an eventfd write adds one
      pc.Signalling? && s' == s.(counter := s.counter + 1, pcs := s.pcs[t := Unlocking])
    case Unlock(_) =>
      pc.Unlocking? && s' == s.(owner := Free, pcs := s.pcs[t := Idle])
    case _ => false
  }

  ghost predicate SocketStep(s: State, a: Action, s': State) {
    match a
    case Wakeup =>
      s.socket.Polling? && s.counter > 0 && s' == s.(socket := Reading)
    case ReadCounter =>
      // a read resets the counter; it fails if there is nothing to read
      s.socket.Reading? && s' == if s.counter > 0 then s.(counter := 0, socket := WantPop) else s.(socket := Polling)
    case LockToPop =>
      s.socket.WantPop? && s.owner.Free? && s' == s.(owner := SocketThread, socket := Popping)
    case Pop =>
      s.socket.Popping? &&
      s' == if s.queue == [] then s.(socket := SawEmpty)
            else s.(queue := s.queue[1..], popped := s.popped + [s.queue[0]], socket := Popped(s.queue[0]))
    case UnlockPopped =>
      (s.socket.SawEmpty? || s.socket.Popped?) &&
      s' == s.(owner := Free, socket := if s.socket.SawEmpty? then Polling else Handling(s.socket.item))
    case Handle =>
      s.socket.Handling? && s' == s.(socket := WantPop)
    case _ => false
  }

  predicate ByPusher(a: Action) {
    a.CallPush? || a.Lock? || a.PushBack? || a.Signal? || a.Unlock?
  }

  ghost predicate Step(s: State, a: Action, s': State) {
    if ByPusher(a) then PusherStep(s, a.thread, a, s') else SocketStep(s, a, s')
  }

  ghost predicate Init(s: State) {
    && s.queue == [] && s.counter == 0 && s.owner.Free? && s.socket.Polling? && s.pushed == [] && s.popped == []
    && forall t | 0 <= t < |s.pcs| :: s.pcs[t].Idle?
  }

  // ----- what holds in every run -----

  predicate Holds(pc: Pc) {
    pc.Pushing? || pc.Signalling? || pc.Unlocking?
  }

  predicate SocketHolds(socket: Socket) {
    socket.Popping? || socket.SawEmpty? || socket.Popped?
  }

  /** In the loop, and the queue was not yet seen empty. */
  predicate Draining(socket: Socket) {
    socket.WantPop? || socket.Popping? || socket.Popped? || socket.Handling?
  }

  ghost predicate MutualExclusion(s: State) {
    && (s.owner.Pusher? ==> s.owner.thread < |s.pcs|)
    && (forall t | 0 <= t < |s.pcs| :: Holds(s.pcs[t]) <==> s.owner == Pusher(t))
    && (SocketHolds(s.socket) <==> s.owner.SocketThread?)
  }

  ghost predicate Fifo(s: State) {
    && s.pushed == s.popped + s.queue
    && (s.socket.Popped? || s.socket.Handling? ==> s.popped != [] && s.popped[|s.popped| - 1] == s.socket.item)
    && (s.socket.SawEmpty? ==> s.queue == [])
  }

  /** A queued message will be seen: the counter is positive, the socket thread is still draining,
      or a pusher is about to signal. */
  ghost predicate NoneStranded(s: State) {
    s.queue != [] ==>
      || s.counter > 0
      || Draining(s.socket)
      || (s.owner.Pusher? && s.owner.thread < |s.pcs| && s.pcs[s.owner.thread].Signalling?)
  }

  ghost predicate Safe(s: State) {
    MutualExclusion(s) && Fifo(s) && NoneStranded(s)
  }

  lemma StepKeepsMutualExclusion(s: State, a: Action, s': State)
    requires MutualExclusion(s) && Step(s, a, s')
    ensures MutualExclusion(s')
  {
  }

  lemma StepKeepsFifo(s: State, a: Action, s': State)
    requires MutualExclusion(s) && Fifo(s) && Step(s, a, s')
    ensures Fifo(s')
  {
    if a.PushBack? {
      assert s'.pushed == s.popped + (s.queue + [s.pcs[a.thread].item]);
    }
  }

  lemma StepKeepsNoneStranded(s: State, a: Action, s': State)
    requires MutualExclusion(s) && Fifo(s) && NoneStranded(s) && Step(s, a, s')
    ensures NoneStranded(s')
  {
  }

  ghost predicate Run(states: seq<State>, actions: seq<Action>) {
    && |states| == |actions| + 1
    && Init(states[0])
    && forall i | 0 <= i < |actions| :: Step(states[i], actions[i], states[i + 1])
  }

  /** In every run: mutual exclusion, delivery in order, and no stranded message. */
  lemma {:induction false} EveryRunIsSafe(states: seq<State>, actions: seq<Action>, n: nat)
    requires Run(states, actions) && n < |states|
    ensures Safe(states[n])
  {
    if n > 0 {
      hide Step, MutualExclusion, Fifo, NoneStranded;
      EveryRunIsSafe(states, actions, n - 1);
      var s, a, s' := states[n - 1], actions[n - 1], states[n];
      StepKeepsMutualExclusion(s, a, s');
      StepKeepsFifo(s, a, s');
      StepKeepsNoneStranded(s, a, s');
    }
  }

  // ----- everything pushed is handled -----

  /** All steps but new calls. */
  predicate Finishing(a: Action) {
    !a.CallPush?
  }

  ghost predicate Quiet(s: State) {
    forall a, s' | Finishing(a) :: !Step(s, a, s')
  }

  lemma PusherCanGoOn(s: State, t: nat)
    requires Safe(s) && t < |s.pcs|
    requires Holds(s.pcs[t]) || (s.owner.Free? && s.pcs[t].WantPush?)
    ensures !Quiet(s)
  {
    var pc := s.pcs[t];
    var (a, s') :=
      if pc.WantPush? then
        (Lock(t), s.(owner := Pusher(t), pcs := s.pcs[t := Pushing(pc.item)]))
      else if pc.Pushing? then
        (PushBack(t), s.(queue := s.queue + [pc.item], pushed := s.pushed + [pc.item], pcs := s.pcs[t := Signalling]))
      else if pc.Signalling? then
        (Signal(t), s.(counter := s.counter + 1, pcs := s.pcs[t := Unlocking]))
      else
        (Unlock(t), s.(owner := Free, pcs := s.pcs[t := Idle]));
    assert Step(s, a, s') && Finishing(a);
  }

  lemma SocketCanGoOn(s: State)
    requires Safe(s)
    requires SocketHolds(s.socket) || s.socket.Reading? || s.socket.Handling?
      || (s.owner.Free? && s.socket.WantPop?) || (s.socket.Polling? && s.counter > 0)
    ensures !Quiet(s)
  {
    var (a, s') := match s.socket
      case Polling => (Wakeup, s.(socket := Reading))
      case Reading =>
        (ReadCounter, if s.counter > 0 then s.(counter := 0, socket := WantPop) else s.(socket := Polling))
      case WantPop => (LockToPop, s.(owner := SocketThread, socket := Popping))
      case Popping =>
        (Pop, if s.queue == [] then s.(socket := SawEmpty)
              else s.(queue := s.queue[1..], popped := s.popped + [s.queue[0]], socket := Popped(s.queue[0])))
      case Handling(_) => (Handle, s.(socket := WantPop))
      case SawEmpty => (UnlockPopped, s.(owner := Free, socket := Polling))
      case Popped(item) => (UnlockPopped, s.(owner := Free, socket := Handling(item)));
    assert Step(s, a, s') && Finishing(a);
  }

  /** When nothing can go on, everything that was pushed has been popped, in order. */
  lemma QuietMeansDrained(s: State)
    requires Safe(s) && Quiet(s)
    ensures s.queue == [] && s.popped == s.pushed && s.socket.Polling? && s.counter == 0
    ensures forall t | 0 <= t < |s.pcs| :: s.pcs[t].Idle?
  {
    hide Quiet;
    if s.owner.Pusher? {
      PusherCanGoOn(s, s.owner.thread);
    }
    if !s.socket.Polling? || s.counter > 0 {
      SocketCanGoOn(s);
    }
    forall t | 0 <= t < |s.pcs|
      ensures s.pcs[t].Idle?
    {
      if !s.pcs[t].Idle? {
        PusherCanGoOn(s, t);
      }
    }
  }

  /** The steps a pusher still has to do. */
  function Rank(pc: Pc): nat {
    match pc
    case WantPush(_) => 4
    case Pushing(_) => 3
    case Signalling => 2
    case Unlocking => 1
    case Idle => 0
  }

  /** The readings of the counter to come. */
  function Readings(s: State): nat {
    if s.counter == 0 then 0 else if s.socket.Reading? then 1 else 2
  }

  /** The place of the socket thread in its loop. */
  function SocketRank(socket: Socket): nat {
    match socket
    case Polling => 0
    case SawEmpty => 1
    case Popping => 2
    case WantPop => 3
    case Handling(_) => 4
    case Popped(_) => 5
    case Reading => 6
  }

  ghost predicate Less(a: (nat, nat, nat, nat), b: (nat, nat, nat, nat)) {
    || a.0 < b.0
    || (a.0 == b.0 && a.1 < b.1)
    || (a.0 == b.0 && a.1 == b.1 && a.2 < b.2)
    || (a.0 == b.0 && a.1 == b.1 && a.2 == b.2 && a.3 < b.3)
  }

  ghost function Measure(s: State): (nat, nat, nat, nat) {
    (Sum(Rank, s.pcs), |s.queue|, Readings(s), SocketRank(s.socket))
  }

  /** Without new calls every run comes to such an end: each step makes the measure smaller,
      lexicographically. */
  lemma FinishingEnds(s: State, a: Action, s': State)
    requires Step(s, a, s') && Finishing(a)
    ensures Less(Measure(s'), Measure(s))
  {
    if ByPusher(a) {
      var t := a.thread;
      SumUpdate(Rank, s.pcs, t, s'.pcs[t]);
    }
  }

  lemma StepKeepsSafe(s: State, a: Action, s': State)
    requires Safe(s) && Step(s, a, s')
    ensures Safe(s')
  {
    hide Step, MutualExclusion, Fifo, NoneStranded;
    StepKeepsMutualExclusion(s, a, s');
    StepKeepsFifo(s, a, s');
    StepKeepsNoneStranded(s, a, s');
  }

  /** Every way to go on without new calls ends, after finitely many steps, with everything popped:
      here is one, and whichever step is chosen it can be continued to such an end. */
  lemma {:induction false} Settles(s: State) returns (states: seq<State>, actions: seq<Action>)
    requires Safe(s)
    ensures |states| == |actions| + 1 && states[0] == s
    ensures forall i | 0 <= i < |actions| :: Finishing(actions[i]) && Step(states[i], actions[i], states[i + 1])
    ensures var t := states[|actions|]; t.queue == [] && t.popped == t.pushed && s.pushed <= t.pushed
    decreases Measure(s).0, Measure(s).1, Measure(s).2, Measure(s).3
  {
    if Quiet(s) {
      QuietMeansDrained(s);
      return [s], [];
    }
    hide Quiet, Step, Safe, Measure;
    var a, s' := NextStep(s);
    FinishingEnds(s, a, s');
    StepKeepsSafe(s, a, s');
    PushedGrows(s, a, s');
    var states', actions' := Settles(s');
    states, actions := [s] + states', [a] + actions';
  }

  lemma NextStep(s: State) returns (a: Action, s': State)
    requires !Quiet(s)
    ensures Finishing(a) && Step(s, a, s')
  {
    a, s' :| Finishing(a) && Step(s, a, s');
  }

  lemma PushedGrows(s: State, a: Action, s': State)
    requires Step(s, a, s')
    ensures s.pushed <= s'.pushed
  {
  }

  // ----- what the calls do -----

  ghost predicate Series(states: seq<State>, actions: seq<Action>) {
    |states| == |actions| + 1 && forall i | 0 <= i < |actions| :: Step(states[i], actions[i], states[i + 1])
  }

  /** A push that nobody interrupts puts its item behind the queue and adds one to the counter. */
  lemma PushTakesEffect(s: State, t: nat, item: Outgoing) returns (states: seq<State>)
    requires t < |s.pcs| && s.pcs[t].Idle? && s.owner.Free?
    ensures Series(states, [CallPush(t, item), Lock(t), PushBack(t), Signal(t), Unlock(t)]) && states[0] == s
    ensures states[5] == s.(queue := s.queue + [item], pushed := s.pushed + [item], counter := s.counter + 1)
  {
    var s1 := s.(pcs := s.pcs[t := WantPush(item)]);
    var s2 := s1.(owner := Pusher(t), pcs := s1.pcs[t := Pushing(item)]);
    var s3 := s2.(queue := s.queue + [item], pushed := s.pushed + [item], pcs := s2.pcs[t := Signalling]);
    var s4 := s3.(counter := s.counter + 1, pcs := s3.pcs[t := Unlocking]);
    var s5 := s4.(owner := Free, pcs := s4.pcs[t := Idle]);
    assert s5.pcs == s.pcs;
    states := [s, s1, s2, s3, s4, s5];
  }

  /** A wake-up that nobody interrupts empties the counter and hands the first message to the handler. */
  lemma WakeupTakesEffect(s: State) returns (states: seq<State>)
    requires s.socket.Polling? && s.counter > 0 && s.owner.Free? && s.queue != []
    ensures Series(states, [Wakeup, ReadCounter, LockToPop, Pop, UnlockPopped]) && states[0] == s
    ensures states[5] ==
      s.(counter := 0, queue := s.queue[1..], popped := s.popped + [s.queue[0]], socket := Handling(s.queue[0]))
  {
    var s1 := s.(socket := Reading);
    var s2 := s1.(counter := 0, socket := WantPop);
    var s3 := s2.(owner := SocketThread, socket := Popping);
    var s4 := s3.(queue := s.queue[1..], popped := s.popped + [s.queue[0]], socket := Popped(s.queue[0]));
    var s5 := s4.(owner := Free, socket := Handling(s.queue[0]));
    states := [s, s1, s2, s3, s4, s5];
  }

  /** Behind a handled message the loop goes on with the next one, or ends if there is none. */
  lemma LoopGoesOn(s: State) returns (states: seq<State>)
    requires s.socket.Handling? && s.owner.Free?
    ensures Series(states, [Handle, LockToPop, Pop, UnlockPopped]) && states[0] == s
    ensures states[4] ==
      if s.queue == [] then s.(socket := Polling)
      else s.(queue := s.queue[1..], popped := s.popped + [s.queue[0]], socket := Handling(s.queue[0]))
  {
    var s1 := s.(socket := WantPop);
    var s2 := s1.(owner := SocketThread, socket := Popping);
    var s3 := if s.queue == [] then s2.(socket := SawEmpty)
              else s2.(queue := s.queue[1..], popped := s.popped + [s.queue[0]], socket := Popped(s.queue[0]));
    var s4 := s3.(owner := Free, socket := if s.queue == [] then Polling else Handling(s.queue[0]));
    states := [s, s1, s2, s3, s4];
  }
}
